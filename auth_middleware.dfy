/** The authentication middleware: the token gate in front of the protected routes, its
    non-rejecting variant, and the role and ownership checks that follow it. Token
    verification (`jwt.verify`) is the parameter `verify`: its outcome is all the
    middleware learns from the signature. */
module AuthMiddleware {
  import opened Common
  import opened AuthController

  const FORBIDDEN := 403
  const ADMIN := "ADMIN"

  /** What `jwt.verify` does with a token: returns, or throws one of its errors. */
  datatype Verified = Verified | JsonWebTokenError | TokenExpiredError | OtherError

  /** `req.user` as the gate sets it. */
  datatype AuthUser = AuthUser(userId: int, email: string, role: string, sessionId: int)

  /** Continue to the route (`next()`), or answer with an error. */
  datatype Outcome = Next | Reject(status: int, message: string)

  /** The `roles` argument of `requireRole`: one role or an array of them. */
  datatype Roles = OneRole(role: string) | RoleList(roles: seq<string>)

  /** A `userId` of the request body: JSON gives a string or a number. */
  datatype BodyId = Str(s: string) | Num(n: int)

  /** The request, whose `user` field the gate assigns. */
  class Request {
    var user: Option<AuthUser>

    constructor (user: Option<AuthUser>)
      ensures this.user == user
    {
      this.user := user;
    }
  }

  // ---------------------------------------------------------------- tokens

  /** `s.split(sep)`. */
  function Split(s: string, sep: char): (parts: seq<string>)
    ensures |parts| >= 1
    ensures forall i :: 0 <= i < |parts| ==> sep !in parts[i]
    ensures Join(parts, sep) == s
  {
    if s == [] then [""]
    else
      var rest := Split(s[1..], sep);
      if s[0] == sep then [""] + rest
      else [[s[0]] + rest[0]] + rest[1..]
  }

  /** `parts.join(sep)`, the inverse of `Split`. */
  function Join(parts: seq<string>, sep: char): string
    requires |parts| >= 1
  {
    if |parts| == 1 then parts[0] else parts[0] + [sep] + Join(parts[1..], sep)
  }

  /** `authHeader && authHeader.split(' ')[1]`, with a missing second part `None`. */
  function HeaderToken(authorization: Option<string>): (r: Option<string>)
    ensures r.Some? ==> Truthy(authorization) && ' ' !in r.value
    ensures Truthy(authorization) && |Split(authorization.value, ' ')| >= 2 ==>
      r == Some(Split(authorization.value, ' ')[1])
    ensures !Truthy(authorization) || |Split(authorization.value, ' ')| < 2 ==> r.None?
  {
    if !Truthy(authorization) then None
    else
      var parts := Split(authorization.value, ' ');
      if |parts| >= 2 then Some(parts[1]) else None
  }

  /** The token the gate checks: the header's second word, else the `authToken` cookie. */
  function RequestToken(authorization: Option<string>, cookie: Option<string>): (r: Option<string>)
    ensures Truthy(HeaderToken(authorization)) ==> r == HeaderToken(authorization)
    ensures !Truthy(HeaderToken(authorization)) ==> r == cookie
  {
    OrElse(HeaderToken(authorization), cookie)
  }

  /** A well-formed `Bearer t` header yields `t`, the very token logout revokes. */
  lemma BearerToken(t: string, cookie: Option<string>, bodyToken: Option<string>)
    requires t != "" && ' ' !in t
    ensures RequestToken(Some("Bearer " + t), cookie) == Some(t)
    ensures LogoutToken(Some("Bearer " + t), bodyToken, cookie) == Some(t)
  {
    assert "Bearer " + t == "Bearer" + " " + t;
    SplitWord("Bearer", t);
    LogoutTokenOrder(t, bodyToken, cookie);
  }

  /** Splitting `w + " " + t` on spaces, with no space in `w` or `t`, gives `[w, t]`. */
  lemma {:induction false} SplitWord(w: string, t: string)
    requires ' ' !in w && ' ' !in t
    ensures Split(w + " " + t, ' ') == [w, t]
  {
    if w == [] {
      assert (" " + t)[1..] == t;
      SplitNoSep(t);
    } else {
      assert (w + " " + t)[1..] == w[1..] + " " + t;
      SplitWord(w[1..], t);
      assert [w[0]] + w[1..] == w;
    }
  }

  /** Any scheme word: the token is the second space-separated word, whatever follows it
      after a further space; a header without a space yields no token. */
  lemma HeaderSecondWord(w: string, t: string, rest: string)
    requires ' ' !in w && ' ' !in t && (rest == "" || rest[0] == ' ')
    ensures HeaderToken(Some(w + " " + t + rest)) == Some(t)
  {
    assert w + " " + t + rest == w + " " + (t + rest);
    SplitPrefix(w, t + rest);
    SplitHead(t, rest);
  }

  lemma HeaderOneWord(h: string)
    requires ' ' !in h
    ensures HeaderToken(Some(h)) == None
  {
    SplitNoSep(h);
  }

  /** A first word without a space is split off whole. */
  lemma {:induction false} SplitPrefix(w: string, rest: string)
    requires ' ' !in w
    ensures Split(w + " " + rest, ' ') == [w] + Split(rest, ' ')
  {
    if w == [] {
      assert (" " + rest)[1..] == rest;
    } else {
      assert (w + " " + rest)[1..] == w[1..] + " " + rest;
      SplitPrefix(w[1..], rest);
      assert [w[0]] + w[1..] == w;
    }
  }

  /** The first part of `t + rest` is `t` when `rest` is empty or starts a new word. */
  lemma {:induction false} SplitHead(t: string, rest: string)
    requires ' ' !in t && (rest == "" || rest[0] == ' ')
    ensures Split(t + rest, ' ')[0] == t
  {
    if t == [] {
      assert t + rest == rest;
    } else {
      assert (t + rest)[1..] == t[1..] + rest;
      SplitHead(t[1..], rest);
      assert [t[0]] + t[1..] == t;
    }
  }

  lemma {:induction false} SplitNoSep(t: string)
    requires ' ' !in t
    ensures Split(t, ' ') == [t]
  {
    if t != [] {
      SplitNoSep(t[1..]);
      assert [t[0]] + t[1..] == t;
    }
  }

  // ---------------------------------------------------------------- sessions

  /** A session row the gate's query accepts: the token matches, it is active and it
      has not expired. */
  predicate Live(s: Session, token: string, now: Timestamp)
  {
    s.token == token && s.isActive && s.expiresAt > now
  }

  /** The gate's query: the first live session with the token, joined with its user. */
  function FindLiveSession(users: seq<User>, sessions: seq<Session>, token: string, now: Timestamp)
    : (r: Option<AuthUser>)
    ensures r.None? <==> forall i :: 0 <= i < |sessions| && Live(sessions[i], token, now) ==>
      !(exists j :: 0 <= j < |users| && users[j].id == sessions[i].userId)
    ensures r.Some? ==> exists i, j :: (
      && 0 <= i < |sessions| && 0 <= j < |users|
      && Live(sessions[i], token, now) && users[j].id == sessions[i].userId
      && r.value == AuthUser(sessions[i].userId, users[j].email, users[j].role, sessions[i].id))
  {
    if sessions == [] then None
    else
      var s := sessions[0];
      var u := UserById(users, s.userId);
      if Live(s, token, now) && u.Some? then
        Some(AuthUser(s.userId, users[u.value].email, users[u.value].role, s.id))
      else
        var r := FindLiveSession(users, sessions[1..], token, now);
        assert forall i :: 1 <= i < |sessions| ==> sessions[i] == sessions[1..][i - 1];
        if r.Some? then r else None
  }

  /** `JOIN users u ON s.user_id = u.id`. */
  function UserById(users: seq<User>, id: int): (r: Option<nat>)
    ensures r.Some? ==> r.value < |users| && users[r.value].id == id
    ensures r.None? <==> forall j :: 0 <= j < |users| ==> users[j].id != id
  {
    if users == [] then None
    else if users[0].id == id then Some(0)
    else
      var r := UserById(users[1..], id);
      assert forall j :: 1 <= j < |users| ==> users[j] == users[1..][j - 1];
      if r.Some? then Some(r.value + 1) else None
  }

  /** In a consistent store every session's user exists, so the join never drops a
      row: the gate accepts a token exactly when some session with it is live. */
  lemma LiveIffSession(users: seq<User>, sessions: seq<Session>, token: string, now: Timestamp)
    requires UserIdsAreIndices(users) && SessionsOfUsers(sessions, users)
    ensures FindLiveSession(users, sessions, token, now).None? <==>
      forall i :: 0 <= i < |sessions| ==> !Live(sessions[i], token, now)
  {
    forall i | 0 <= i < |sessions|
      ensures users[sessions[i].userId - 1].id == sessions[i].userId
    {
    }
  }

  /** After logout revokes a token, the gate finds no live session for it. */
  lemma LogoutEndsSessions(users: seq<User>, sessions: seq<Session>, token: string,
                           now: Timestamp, later: Timestamp)
    ensures FindLiveSession(users, Invalidated(sessions, token, now), token, later).None?
  {
    InvalidatedMeaning(sessions, token, now);
  }

  /** A session opened at `now` for an existing user lets its token through until it
      expires (the answer may name an earlier live session with the same token). */
  lemma NewSessionLive(users: seq<User>, sessions: seq<Session>, userId: int, token: string,
                       now: Timestamp, minutes: int, later: Timestamp)
    requires UserIdsAreIndices(users) && 1 <= userId <= |users|
    requires later < ExpiresAt(now, minutes)
    ensures var s := Session(|sessions| + 1, userId, token, ExpiresAt(now, minutes), true, now);
      FindLiveSession(users, sessions + [s], token, later).Some?
  {
    var s := Session(|sessions| + 1, userId, token, ExpiresAt(now, minutes), true, now);
    var all := sessions + [s];
    assert all[|sessions|] == s && Live(s, token, later);
    assert users[userId - 1].id == userId;
  }

  // ---------------------------------------------------------------- the gate

  /** `authenticateToken`: 401 without a token, 401 "Invalid token" or "Token has
      expired" when verification throws those, 500 on any other error, 401 without a
      live session; otherwise `req.user` is the session's user and the route runs. */
  method AuthenticateToken(req: Request, store: AuthStore, authorization: Option<string>,
                           cookie: Option<string>, verify: string -> Verified, now: Timestamp)
    returns (outcome: Outcome)
    modifies req
    ensures var token := RequestToken(authorization, cookie);
      if !Truthy(token) then
        outcome == Reject(UNAUTHORIZED, "Access token is required") && req.user == old(req.user)
      else match verify(token.value)
        case JsonWebTokenError => outcome == Reject(UNAUTHORIZED, "Invalid token") && req.user == old(req.user)
        case TokenExpiredError => outcome == Reject(UNAUTHORIZED, "Token has expired") && req.user == old(req.user)
        case OtherError => outcome == Reject(SERVER_ERROR, "Internal server error during authentication")
                           && req.user == old(req.user)
        case Verified =>
          var found := FindLiveSession(store.users, store.sessions, token.value, now);
          if found.None? then
            outcome == Reject(UNAUTHORIZED, "Invalid or expired token") && req.user == old(req.user)
          else outcome == Next && req.user == found
  {
    var token := RequestToken(authorization, cookie);
    if !Truthy(token) {
      return Reject(UNAUTHORIZED, "Access token is required");
    }
    match verify(token.value)
    case JsonWebTokenError => return Reject(UNAUTHORIZED, "Invalid token");
    case TokenExpiredError => return Reject(UNAUTHORIZED, "Token has expired");
    case OtherError => return Reject(SERVER_ERROR, "Internal server error during authentication");
    case Verified =>
      var found := FindLiveSession(store.users, store.sessions, token.value, now);
      if found.None? {
        return Reject(UNAUTHORIZED, "Invalid or expired token");
      }
      req.user := found;
      return Next;
  }

  /** `optionalAuth`: never rejects; `req.user` is the session's user when the token
      verifies and has a live session, and null otherwise. */
  method OptionalAuth(req: Request, store: AuthStore, authorization: Option<string>,
                      cookie: Option<string>, verify: string -> Verified, now: Timestamp)
    returns (outcome: Outcome)
    modifies req
    ensures outcome == Next
    ensures var token := RequestToken(authorization, cookie);
      req.user == if Truthy(token) && verify(token.value) == Verified
                  then FindLiveSession(store.users, store.sessions, token.value, now)
                  else None
  {
    var token := RequestToken(authorization, cookie);
    if !Truthy(token) || verify(token.value) != Verified {
      req.user := None;
      return Next;
    }
    req.user := FindLiveSession(store.users, store.sessions, token.value, now);
    return Next;
  }

  // ---------------------------------------------------------------- roles and owners

  /** `Array.isArray(roles) ? roles : [roles]`. */
  function AllowedRoles(roles: Roles): seq<string>
  {
    match roles
    case OneRole(r) => [r]
    case RoleList(rs) => rs
  }

  /** `requireRole(roles)`: 401 without a user, 403 when its role is not allowed. */
  function RequireRole(user: Option<AuthUser>, roles: Roles): (o: Outcome)
    ensures o == Next <==> user.Some? && user.value.role in AllowedRoles(roles)
    ensures user.None? ==> o == Reject(UNAUTHORIZED, "Authentication required")
    ensures user.Some? && user.value.role !in AllowedRoles(roles) ==>
      o == Reject(FORBIDDEN, "Insufficient permissions")
  {
    if user.None? then Reject(UNAUTHORIZED, "Authentication required")
    else if user.value.role !in AllowedRoles(roles) then Reject(FORBIDDEN, "Insufficient permissions")
    else Next
  }

  /** `requireAdmin`. */
  function RequireAdmin(user: Option<AuthUser>): (o: Outcome)
    ensures o == Next <==> user.Some? && user.value.role == ADMIN
  {
    RequireRole(user, OneRole(ADMIN))
  }

  /** A single role and the one-element list of it decide alike. */
  lemma SingleRoleWrapped(user: Option<AuthUser>, role: string)
    ensures RequireRole(user, OneRole(role)) == RequireRole(user, RoleList([role]))
  {
  }

  /** `.toString()` of a body id. */
  function BodyIdString(b: BodyId): string
  {
    match b
    case Str(s) => s
    case Num(n) => IntToString(n)
  }

  /** `req.params.userId || req.body.userId`, then `?.toString()`. */
  function ResourceUserId(paramsUserId: Option<string>, bodyUserId: Option<BodyId>): (r: Option<string>)
    ensures Truthy(paramsUserId) ==> r == paramsUserId
    ensures !Truthy(paramsUserId) && bodyUserId.None? ==> r.None?
    ensures !Truthy(paramsUserId) && bodyUserId.Some? ==> r == Some(BodyIdString(bodyUserId.value))
  {
    if Truthy(paramsUserId) then paramsUserId
    else if bodyUserId.Some? then Some(BodyIdString(bodyUserId.value))
    else None
  }

  /** `requireAdminOrOwner`: 401 without a user; an ADMIN always passes; anyone else
      passes only when the id of the route or the body, as text, is their own id. */
  function RequireAdminOrOwner(user: Option<AuthUser>, paramsUserId: Option<string>,
                               bodyUserId: Option<BodyId>): (o: Outcome)
    ensures user.None? ==> o == Reject(UNAUTHORIZED, "Authentication required")
    ensures user.Some? ==> (o == Next <==>
      user.value.role == ADMIN || ResourceUserId(paramsUserId, bodyUserId) == Some(IntToString(user.value.userId)))
    ensures user.Some? && o != Next ==>
      o == Reject(FORBIDDEN, "Access denied. You can only access your own resources.")
  {
    if user.None? then Reject(UNAUTHORIZED, "Authentication required")
    else if user.value.role == ADMIN then Next
    else if ResourceUserId(paramsUserId, bodyUserId) == Some(IntToString(user.value.userId)) then Next
    else Reject(FORBIDDEN, "Access denied. You can only access your own resources.")
  }

  /** A caller who is not an ADMIN passes for a route id only when that id is their own. */
  lemma OwnerOnly(user: AuthUser, routeId: int, bodyUserId: Option<BodyId>)
    requires user.role != ADMIN && routeId != 0
    ensures RequireAdminOrOwner(Some(user), Some(IntToString(routeId)), bodyUserId) == Next
      <==> routeId == user.userId
  {
    assert IntToString(routeId) != "" by {
      if routeId < 0 {
      } else {
        assert |NatToString(routeId)| > 0;
      }
    }
    if ResourceUserId(Some(IntToString(routeId)), bodyUserId) == Some(IntToString(user.userId)) {
      IntToStringInjective(routeId, user.userId);
    }
  }

  /** A numeric body id counts like its decimal text. */
  lemma BodyNumberOwner(user: AuthUser)
    requires user.role != ADMIN && user.userId != 0
    ensures RequireAdminOrOwner(Some(user), None, Some(Num(user.userId))) == Next
  {
  }
}
