/**
 * The JWT middlewares (internal/delivery/middleware/auth.go). The header
 * check and the admin gate are pure decisions; the middlewares apply them to
 * the request context, which gin mutates in place, so the context is a class.
 * Token validation (golang-jwt) is the `validate` parameter: it yields the
 * claims of a valid token and `None` for an invalid or expired one.
 */
module Middleware {
  import opened Wrappers

  /** The values the middlewares store under a context key. */
  datatype Value = IntValue(i: int) | StringValue(s: string) | BoolValue(b: bool)

  datatype Claims = Claims(userID: int, email: string, isAdmin: bool)

  /** The JSON error body `model.ErrorResponse(message, errors)` written with an HTTP status. */
  datatype ErrorReply = ErrorReply(status: int, message: string, errors: seq<string>)

  const StatusUnauthorized: int := 401
  const StatusForbidden: int := 403

  // ---------------------------------------------------------------------------
  // `strings.Split(s, " ")` and the header shape check

  /** `strings.Split(s, " ")`: the pieces between single spaces; "" gives [""]. */
  function SplitSpace(s: string): (parts: seq<string>)
    ensures |parts| >= 1
  {
    if |s| == 0 then [""]
    else if s[0] == ' ' then [""] + SplitSpace(s[1..])
    else var rest := SplitSpace(s[1..]); [[s[0]] + rest[0]] + rest[1..]
  }

  /** `strings.Join(parts, " ")`. */
  function JoinSpace(parts: seq<string>): string
    requires |parts| >= 1
  {
    if |parts| == 1 then parts[0] else parts[0] + " " + JoinSpace(parts[1..])
  }

  predicate NoSpace(s: string) { forall i :: 0 <= i < |s| ==> s[i] != ' ' }

  /** Split pieces contain no space, and joining them back with single spaces restores the input. */
  lemma {:induction false} SplitJoin(s: string)
    ensures JoinSpace(SplitSpace(s)) == s
    ensures forall k :: 0 <= k < |SplitSpace(s)| ==> NoSpace(SplitSpace(s)[k])
    decreases |s|
  {
    if |s| > 0 {
      SplitJoin(s[1..]);
      var rest := SplitSpace(s[1..]);
      if s[0] == ' ' {
        assert ([""] + rest)[1..] == rest;
      } else {
        var parts := [[s[0]] + rest[0]] + rest[1..];
        if |rest| == 1 {
          assert parts == [[s[0]] + rest[0]];
        } else {
          assert parts[1..] == rest[1..];
          assert JoinSpace(rest) == rest[0] + " " + JoinSpace(rest[1..]);
        }
        forall k | 0 <= k < |parts| ensures NoSpace(parts[k]) {
          if k > 0 { assert parts[k] == rest[k]; }
          else { assert NoSpace(rest[0]); }
        }
      }
    }
  }

  /** Splitting a space-free string yields it unchanged. */
  lemma {:induction false} SplitNoSpace(t: string)
    requires NoSpace(t)
    ensures SplitSpace(t) == [t]
    decreases |t|
  {
    if |t| > 0 {
      SplitNoSpace(t[1..]);
      assert [t[0]] + t[1..] == t;
    }
  }

  /** Splitting `a + " " + b` with `a` space-free splits off `a` as the first piece. */
  lemma {:induction false} SplitAfterWord(a: string, b: string)
    requires NoSpace(a)
    ensures SplitSpace(a + " " + b) == [a] + SplitSpace(b)
    decreases |a|
  {
    if |a| == 0 {
      assert a + " " + b == [' '] + b;
      assert (a + " " + b)[1..] == b;
    } else {
      SplitAfterWord(a[1..], b);
      assert (a + " " + b)[1..] == a[1..] + " " + b;
      assert [a[0]] + a[1..] == a;
    }
  }

  datatype HeaderCheck = MissingHeader | MalformedHeader | BearerToken(token: string)

  /** The header checks of `AuthMiddleware`: present, then exactly "Bearer" and one more piece. */
  function CheckHeader(header: string): HeaderCheck {
    if header == "" then MissingHeader
    else
      var parts := SplitSpace(header);
      if |parts| != 2 || parts[0] != "Bearer" then MalformedHeader
      else BearerToken(parts[1])
  }

  /** A header passes exactly when it is "Bearer", one space and a space-free token, and that token is what gets validated. */
  lemma CheckHeaderIff(header: string, token: string)
    ensures CheckHeader(header) == BearerToken(token) <==> header == "Bearer " + token && NoSpace(token)
  {
    if header == "Bearer " + token && NoSpace(token) {
      SplitAfterWord("Bearer", token);
      SplitNoSpace(token);
      assert "Bearer" + " " + token == "Bearer " + token;
    }
    if CheckHeader(header) == BearerToken(token) {
      var parts := SplitSpace(header);
      SplitJoin(header);
      assert parts == [parts[0]] + parts[1..] && parts[1..] == [token];
      assert JoinSpace(parts) == "Bearer" + " " + token;
    }
  }

  /** Any scheme other than "Bearer", such as "bearer" or "Basic", fails the format check. */
  lemma WrongSchemeRejected(scheme: string, token: string)
    requires NoSpace(scheme) && NoSpace(token) && scheme != "Bearer"
    ensures CheckHeader(scheme + " " + token) == MalformedHeader
  {
    SplitAfterWord(scheme, token);
    SplitNoSpace(token);
  }

  /** Two spaces after "Bearer" split into three pieces and fail the format check. */
  lemma DoubleSpaceRejected(token: string)
    requires NoSpace(token)
    ensures CheckHeader("Bearer  " + token) == MalformedHeader
  {
    SplitAfterWord("Bearer", " " + token);
    SplitAfterWord("", token);
    SplitNoSpace(token);
    assert "Bearer" + " " + (" " + token) == "Bearer  " + token;
    assert "" + " " + token == " " + token;
  }

  /** "Bearer " with nothing after it passes the format check with an empty token. */
  lemma EmptyTokenPasses()
    ensures CheckHeader("Bearer ") == BearerToken("")
  {
    CheckHeaderIff("Bearer ", "");
    assert "Bearer " + "" == "Bearer ";
  }

  // ---------------------------------------------------------------------------
  // Decisions

  datatype Decision = Reject(reply: ErrorReply) | Admit(claims: Claims)

  /** What `AuthMiddleware` does with a request: which error it writes, or whose claims it stores. */
  function AuthDecision(header: string, validate: string -> Option<Claims>): (d: Decision)
    ensures d.Reject? ==> d.reply.status == StatusUnauthorized && d.reply.message == "Failed to GET data"
  {
    match CheckHeader(header)
    case MissingHeader => Reject(ErrorReply(StatusUnauthorized, "Failed to GET data", ["Unauthorized"]))
    case MalformedHeader =>
      Reject(ErrorReply(StatusUnauthorized, "Failed to GET data", ["Invalid authorization header format"]))
    case BearerToken(t) =>
      match validate(t)
      case None => Reject(ErrorReply(StatusUnauthorized, "Failed to GET data", ["Invalid or expired token"]))
      case Some(claims) => Admit(claims)
  }

  /**
   * A request gets through exactly when its header is "Bearer " and a
   * space-free token that validates, and the claims stored are that token's.
   */
  lemma AuthAdmitsIff(header: string, validate: string -> Option<Claims>)
    ensures AuthDecision(header, validate).Admit? ==>
              exists t :: header == "Bearer " + t && NoSpace(t) && validate(t) == Some(AuthDecision(header, validate).claims)
    ensures (exists t :: header == "Bearer " + t && NoSpace(t) && validate(t).Some?) ==> AuthDecision(header, validate).Admit?
  {
    var d := AuthDecision(header, validate);
    if d.Admit? {
      var t := CheckHeader(header).token;
      CheckHeaderIff(header, t);
    }
    if exists t :: header == "Bearer " + t && NoSpace(t) && validate(t).Some? {
      var t :| header == "Bearer " + t && NoSpace(t) && validate(t).Some?;
      CheckHeaderIff(header, t);
    }
  }

  datatype AdminGate = Unauthorized | Forbidden | Continue

  /**
   * `AdminMiddleware`: 401 when the flag is missing from the context, 403 when
   * it is false, on otherwise. A flag of another type panics in Go's type
   * assertion, so callers never store one.
   */
  function AdminDecision(flag: Option<Value>): (g: AdminGate)
    requires flag.Some? ==> flag.value.BoolValue?
    ensures g == Continue <==> flag == Some(BoolValue(true))
    ensures g == Unauthorized <==> flag == None
  {
    match flag
    case None => Unauthorized
    case Some(v) => if v.b then Continue else Forbidden
  }

  function Lookup(keys: map<string, Value>, key: string): Option<Value> {
    if key in keys then Some(keys[key]) else None
  }

  /** The three `c.Set` calls of an admitted request. */
  function SetClaims(keys: map<string, Value>, claims: Claims): map<string, Value> {
    keys["userID" := IntValue(claims.userID)]["email" := StringValue(claims.email)]["isAdmin" := BoolValue(claims.isAdmin)]
  }

  /** Behind `AuthMiddleware`, `AdminMiddleware` lets a request on exactly when its token claims an admin. */
  lemma AdminAfterAuth(keys: map<string, Value>, claims: Claims)
    ensures AdminDecision(Lookup(SetClaims(keys, claims), "isAdmin")) ==
            if claims.isAdmin then Continue else Forbidden
  {
  }

  // ---------------------------------------------------------------------------
  // The request context

  class Context {
    /** The Authorization header, "" when absent (`c.GetHeader`). */
    const header: string
    var keys: map<string, Value>
    var aborted: bool
    var reply: Option<ErrorReply>

    constructor (header: string)
      ensures this.header == header && keys == map[] && !aborted && reply == None
    {
      this.header := header;
      keys := map[];
      aborted := false;
      reply := None;
    }

    predicate WellTyped()
      reads this
    {
      && ("userID" in keys ==> keys["userID"].IntValue?)
      && ("isAdmin" in keys ==> keys["isAdmin"].BoolValue?)
    }
  }

  /** `AuthMiddleware(jwtSecret)` applied to one request. */
  method AuthMiddleware(c: Context, validate: string -> Option<Claims>)
    modifies c
    ensures AuthDecision(c.header, validate).Reject? ==>
              c.aborted && c.reply == Some(AuthDecision(c.header, validate).reply) && c.keys == old(c.keys)
    ensures AuthDecision(c.header, validate).Admit? ==>
              c.aborted == old(c.aborted) && c.reply == old(c.reply) &&
              c.keys == SetClaims(old(c.keys), AuthDecision(c.header, validate).claims)
  {
    var authHeader := c.header;
    if authHeader == "" {
      c.reply := Some(ErrorReply(StatusUnauthorized, "Failed to GET data", ["Unauthorized"]));
      c.aborted := true;
      return;
    }
    var parts := SplitSpace(authHeader);
    if |parts| != 2 || parts[0] != "Bearer" {
      c.reply := Some(ErrorReply(StatusUnauthorized, "Failed to GET data", ["Invalid authorization header format"]));
      c.aborted := true;
      return;
    }
    var token := parts[1];
    var claims := validate(token);
    if claims.None? {
      c.reply := Some(ErrorReply(StatusUnauthorized, "Failed to GET data", ["Invalid or expired token"]));
      c.aborted := true;
      return;
    }
    c.keys := c.keys["userID" := IntValue(claims.value.userID)];
    c.keys := c.keys["email" := StringValue(claims.value.email)];
    c.keys := c.keys["isAdmin" := BoolValue(claims.value.isAdmin)];
  }

  /** `AdminMiddleware()` applied to one request. */
  method AdminMiddleware(c: Context)
    requires c.WellTyped()
    modifies c
    ensures c.keys == old(c.keys)
    ensures AdminDecision(Lookup(c.keys, "isAdmin")) == Continue ==> c.aborted == old(c.aborted) && c.reply == old(c.reply)
    ensures AdminDecision(Lookup(c.keys, "isAdmin")) == Unauthorized ==>
              c.aborted && c.reply == Some(ErrorReply(StatusUnauthorized, "Failed to POST data",
                                                      ["Unauthorized - isAdmin not found in context"]))
    ensures AdminDecision(Lookup(c.keys, "isAdmin")) == Forbidden ==>
              c.aborted && c.reply == Some(ErrorReply(StatusForbidden, "Failed to POST data",
                                                      ["Admin access required. Please login with admin account."]))
  {
    if "isAdmin" !in c.keys {
      c.reply := Some(ErrorReply(StatusUnauthorized, "Failed to POST data", ["Unauthorized - isAdmin not found in context"]));
      c.aborted := true;
      return;
    }
    var isAdmin := c.keys["isAdmin"].b;
    if !isAdmin {
      c.reply := Some(ErrorReply(StatusForbidden, "Failed to POST data",
                                 ["Admin access required. Please login with admin account."]));
      c.aborted := true;
      return;
    }
  }

  /** `GetUserID(c)`: 0 when no user id was stored. */
  function GetUserID(c: Context): (id: int)
    requires c.WellTyped()
    reads c
    ensures "userID" !in c.keys ==> id == 0
    ensures "userID" in c.keys ==> IntValue(id) == c.keys["userID"]
  {
    if "userID" in c.keys then c.keys["userID"].i else 0
  }

  /** `GetIsAdmin(c)`: false when no flag was stored. */
  function GetIsAdmin(c: Context): (admin: bool)
    requires c.WellTyped()
    reads c
    ensures admin <==> Lookup(c.keys, "isAdmin") == Some(BoolValue(true))
  {
    if "isAdmin" in c.keys then c.keys["isAdmin"].b else false
  }
}
