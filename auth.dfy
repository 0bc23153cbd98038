/**
 * Bearer-token authentication and the role gate (backend/src/middleware/auth.js).
 * Signature checking is not modelled: `verify` stands for `jwt.verify` with the
 * server secret and either yields the token's claim or fails.
 */
module Auth {
  import opened Wrappers

  datatype Role = ADMIN | STORE_OWNER | USER

  /** The token payload `{ id, email, role }`. */
  datatype Claim = Claim(id: int, email: string, role: Role)

  /** What the middleware decided: continue with a claim, or answer with a status. */
  datatype AuthResult = Authenticated(claim: Claim) | Rejected(status: int, message: string)

  /** What the role gate decided. */
  datatype Gate = Pass | Deny(status: int, message: string)

  const MissingHeader := "Missing Authorization header"
  const MissingToken := "Missing token"
  const InvalidToken := "Invalid token"
  const NotAuthenticated := "Not authenticated"
  const Forbidden := "Forbidden"

  /** Glues fields back together with `sep` between them (the inverse of `Split`). */
  function Join(fields: seq<string>, sep: char): string
    requires |fields| >= 1
  {
    if |fields| == 1 then fields[0] else fields[0] + [sep] + Join(fields[1..], sep)
  }

  /** JavaScript `s.split(sep)` for a one-character separator: "" gives [""], "a b" gives ["a", "b"]. */
  function Split(s: string, sep: char): (fields: seq<string>)
    ensures |fields| >= 1
    ensures forall i :: 0 <= i < |fields| ==> sep !in fields[i]
    ensures Join(fields, sep) == s
    decreases |s|
  {
    if s == [] then [""]
    else
      var rest := Split(s[1..], sep);
      if s[0] == sep then
        assert s == [sep] + s[1..];
        [""] + rest
      else
        var first := [s[0]] + rest[0];
        assert first + [sep] == [s[0]] + (rest[0] + [sep]);
        assert s == [s[0]] + s[1..];
        [first] + rest[1..]
  }

  /** A string without the separator is a single field. */
  lemma {:induction false} SplitWhole(s: string, sep: char)
    requires sep !in s
    ensures Split(s, sep) == [s]
    decreases |s|
  {
    if s != [] {
      assert sep !in s[1..];
      SplitWhole(s[1..], sep);
    }
  }

  /** Splitting `a + sep + t`, where `a` has no separator, gives `a` and then the fields of `t`. */
  lemma {:induction false} SplitFirstField(a: string, sep: char, t: string)
    requires sep !in a
    ensures Split(a + [sep] + t, sep) == [a] + Split(t, sep)
    decreases |a|
  {
    if a == [] {
      assert a + [sep] + t == [sep] + t;
      assert ([sep] + t)[1..] == t;
    } else {
      assert (a + [sep] + t)[1..] == a[1..] + [sep] + t;
      assert sep !in a[1..];
      SplitFirstField(a[1..], sep, t);
      assert [a[0]] + a[1..] == a;
    }
  }

  /** `header.split(' ')[1]`: the second space-separated field, if there is one. */
  function TokenOf(header: string): (token: Option<string>)
    ensures token.Some? ==> ' ' !in token.value
  {
    var fields := Split(header, ' ');
    if |fields| >= 2 then Some(fields[1]) else None
  }

  /** The scheme word is not checked: any first word followed by one space and a token yields that token. */
  lemma TokenAfterAnyScheme(scheme: string, token: string)
    requires ' ' !in scheme && ' ' !in token
    ensures TokenOf(scheme + " " + token) == Some(token)
  {
    SplitFirstField(scheme, ' ', token);
    SplitWhole(token, ' ');
  }

  /** A header with no space, such as "Bearer" alone, has no token. */
  lemma SchemeAloneHasNoToken(header: string)
    requires ' ' !in header
    ensures TokenOf(header) == None
  {
    SplitWhole(header, ' ');
  }

  /** The decision `authMiddleware` takes for a header value. */
  function Authenticate(header: Option<string>, verify: string -> Option<Claim>): (r: AuthResult)
    ensures r.Rejected? ==> r.status == 401
    ensures r.Authenticated? ==>
              header.Some? && TokenOf(header.value).Some? && TokenOf(header.value).value != ""
              && verify(TokenOf(header.value).value) == Some(r.claim)
    ensures (header.Some? && TokenOf(header.value).Some? && TokenOf(header.value).value != ""
             && verify(TokenOf(header.value).value).Some?) ==> r.Authenticated?
  {
    if header.None? || header.value == "" then Rejected(401, MissingHeader)
    else
      match TokenOf(header.value)
      case None => Rejected(401, MissingToken)
      case Some(token) =>
        if token == "" then Rejected(401, MissingToken)
        else
          match verify(token)
          case None => Rejected(401, InvalidToken)
          case Some(claim) => Authenticated(claim)
  }

  /** A missing (or empty) header is rejected before anything else is looked at. */
  lemma MissingHeaderRejected(verify: string -> Option<Claim>)
    ensures Authenticate(None, verify) == Rejected(401, MissingHeader)
    ensures Authenticate(Some(""), verify) == Rejected(401, MissingHeader)
  {
  }

  /** A one-word header is rejected for its missing token, whatever `verify` would say. */
  lemma OneWordHeaderRejected(word: string, verify: string -> Option<Claim>)
    requires word != "" && ' ' !in word
    ensures Authenticate(Some(word), verify) == Rejected(401, MissingToken)
  {
    SchemeAloneHasNoToken(word);
  }

  /** With a well-formed `<scheme> <token>` header the outcome is exactly what `verify` says about the token. */
  lemma WellFormedHeaderVerified(scheme: string, token: string, verify: string -> Option<Claim>)
    requires scheme != "" && token != "" && ' ' !in scheme && ' ' !in token
    ensures Authenticate(Some(scheme + " " + token), verify)
            == if verify(token).Some? then Authenticated(verify(token).value) else Rejected(401, InvalidToken)
  {
    TokenAfterAnyScheme(scheme, token);
  }

  /** The request as the middleware sees it. */
  class Request {
    var authorization: Option<string>
    var user: Option<Claim>

    constructor (authorization: Option<string>)
      ensures this.authorization == authorization && user == None
    {
      this.authorization := authorization;
      user := None;
    }
  }

  /** `authMiddleware`: sets `req.user` to the verified claim and continues, or answers 401 and leaves `req.user` alone. */
  method AuthMiddleware(req: Request, verify: string -> Option<Claim>) returns (result: AuthResult)
    modifies req`user
    ensures result == Authenticate(req.authorization, verify)
    ensures result.Authenticated? ==> req.user == Some(result.claim)
    ensures result.Rejected? ==> req.user == old(req.user)
  {
    var header := req.authorization;
    if header.None? || header.value == "" {
      return Rejected(401, MissingHeader);
    }
    var token := TokenOf(header.value);
    if token.None? || token.value == "" {
      return Rejected(401, MissingToken);
    }
    var payload := verify(token.value);
    if payload.None? {
      return Rejected(401, InvalidToken);
    }
    req.user := payload;
    result := Authenticated(payload.value);
  }

  /** `requireRole(...roles)`: 401 without a user, 403 when the user's role is not listed, otherwise continue. */
  function RequireRole(user: Option<Claim>, roles: seq<Role>): (r: Gate)
    ensures r == Pass <==> user.Some? && user.value.role in roles
    ensures r == Deny(401, NotAuthenticated) <==> user.None?
    ensures r == Deny(403, Forbidden) <==> user.Some? && user.value.role !in roles
  {
    if user.None? then Deny(401, NotAuthenticated)
    else if user.value.role !in roles then Deny(403, Forbidden)
    else Pass
  }
}
