/** Access-token authentication (`backend/src/middleware/auth.middleware.js`):
    the `Authorization: Bearer <token>` header of section 2.1 of RFC 6750,
    the signature check (an oracle here) and the user-row check. */
module AuthMiddleware {
  import opened Common
  import opened Responses
  import opened Roles

  /** The payload of a verified access token. `tokenType` is the `type` claim. */
  datatype Claims = Claims(sub: int, username: string, roles: seq<string>, tokenType: Option<string>)

  /** What the JWT library answers: the decoded payload, or the name of the
      error it threw. */
  datatype Verification = Verified(claims: Claims) | Failed(errorName: string)

  /** The user row the middleware reads: `roles` is the comma-joined role
      names, NULL when the user holds none. */
  datatype UserRow = UserRow(id: int, username: string, nombre: string, apellidos: string,
                             activo: bool, deletedAt: Option<int>, roles: Option<string>)

  /** Either the request goes on (with the attached user, or anonymously for
      `optionalAuth`) or it is answered. */
  datatype Outcome = Accept(user: AuthUser) | Anonymous | Reject(response: Response<()>)

  const BEARER := "Bearer "
  const MISSING_TOKEN := "Token de acceso no proporcionado"
  const MALFORMED := "Token malformado"
  const EXPIRED := "Token expirado. Utiliza el endpoint /auth/refresh"
  const INVALID := "Token inválido"
  const WRONG_TYPE := "Tipo de token incorrecto"
  const NO_USER := "Usuario no encontrado"
  const INACTIVE := "Cuenta inactiva o eliminada"

  predicate StartsWith(s: string, prefix: string) {
    |prefix| <= |s| && s[..|prefix|] == prefix
  }

  /** `authHeader.split(' ')[1]`; the header starts with "Bearer ", so the
      split has at least two fields. */
  function BearerToken(header: string): (token: string)
    requires StartsWith(header, BEARER)
    ensures ' ' !in token
    ensures token == Split(header[|BEARER|..], ' ')[0]
  {
    var rest := header[|BEARER|..];
    assert header == "Bearer" + [' '] + rest;
    SplitNoSeparator("Bearer", ' ');
    SplitAround("Bearer", rest, ' ');
    Split(header, ' ')[1]
  }

  /** The token is the word right after "Bearer ", up to the next space. */
  lemma BearerTokenIsFirstWord(word: string, tail: Option<string>)
    requires ' ' !in word
    ensures var h := BEARER + word + (if tail.Some? then [' '] + tail.value else "");
            StartsWith(h, BEARER) && BearerToken(h) == word
  {
    var h := BEARER + word + (if tail.Some? then [' '] + tail.value else "");
    assert h[..|BEARER|] == BEARER;
    var rest := h[|BEARER|..];
    SplitNoSeparator(word, ' ');
    if tail.Some? {
      assert rest == word + [' '] + tail.value;
      SplitAround(word, tail.value, ' ');
    } else {
      assert rest == word;
    }
  }

  /** "Bearer " alone, or "Bearer" followed by two spaces, carries an empty token. */
  lemma EmptyTokenExamples(tail: string)
    ensures BearerToken(BEARER) == ""
    ensures StartsWith(BEARER + " " + tail, BEARER) && BearerToken(BEARER + " " + tail) == ""
  {
    var h := BEARER + " " + tail;
    assert h[..|BEARER|] == BEARER;
    assert h[|BEARER|..] == [] + [' '] + tail;
    SplitAround([], tail, ' ');
    assert BEARER[|BEARER|..] == [];
  }

  /** `user.roles ? user.roles.split(',') : []`. */
  function RoleList(roles: Option<string>): (r: seq<string>)
    ensures !TruthyString(roles) ==> r == []
    ensures TruthyString(roles) ==> Join(r, ",") == roles.value && |r| >= 1
  {
    if TruthyString(roles) then
      JoinSplit(roles.value, ',');
      Split(roles.value, ',')
    else []
  }

  /** A comma-joined list of comma-free role names splits back into the list. */
  lemma RoleListOfJoined(names: seq<string>)
    requires |names| >= 1 && names != [""]
    requires forall i | 0 <= i < |names| :: ',' !in names[i]
    ensures RoleList(Some(Join(names, ","))) == names
  {
    SplitJoin(names, ',');
    if |names| > 1 {
      assert Join(names, ",") == names[0] + "," + Join(names[1..], ",");
    }
  }

  /** `authenticate(req, res, next)`: the guard chain. `verify` is the JWT
      check and `lookup` the user query by id. */
  function Authenticate(header: Option<string>, verify: string -> Verification,
                        lookup: int -> Option<UserRow>): (o: Outcome)
    ensures !TruthyString(header) || !StartsWith(header.value, BEARER)
            ==> o == Reject(Unauthorized(MISSING_TOKEN))
    ensures o.Accept? ==>
              TruthyString(header) && StartsWith(header.value, BEARER)
              && var token := BearerToken(header.value);
                 token != "" && verify(token).Verified?
                 && verify(token).claims.tokenType == Some("access")
                 && var row := lookup(verify(token).claims.sub);
                    row.Some? && row.value.activo && row.value.deletedAt.None?
                    && o.user == AuthUser(row.value.id, row.value.username, row.value.nombre,
                                          row.value.apellidos, Some(RoleList(row.value.roles)))
    ensures !o.Anonymous?
    ensures o.Reject? ==> o.response.status == 401
  {
    if !TruthyString(header) || !StartsWith(header.value, BEARER) then
      Reject(Unauthorized(MISSING_TOKEN))
    else
      var token := BearerToken(header.value);
      if token == "" then Reject(Unauthorized(MALFORMED))
      else match verify(token)
        case Failed(name) =>
          if name == "TokenExpiredError" then Reject(Unauthorized(EXPIRED))
          else Reject(Unauthorized(INVALID))
        case Verified(claims) =>
          if claims.tokenType != Some("access") then Reject(Unauthorized(WRONG_TYPE))
          else match lookup(claims.sub)
            case None => Reject(Unauthorized(NO_USER))
            case Some(row) =>
              if !row.activo || row.deletedAt.Some? then Reject(Unauthorized(INACTIVE))
              else Accept(AuthUser(row.id, row.username, row.nombre, row.apellidos,
                                   Some(RoleList(row.roles))))
  }

  /** Each way a well-formed header can fail gets its own message, and a
      header that passes every check is accepted. */
  lemma AuthenticateRejections(token: string, verify: string -> Verification,
                               lookup: int -> Option<UserRow>)
    requires token != "" && ' ' !in token
    ensures verify(token) == Failed("TokenExpiredError")
            ==> Authenticate(Some(BEARER + token), verify, lookup) == Reject(Unauthorized(EXPIRED))
    ensures verify(token).Failed? && verify(token).errorName != "TokenExpiredError"
            ==> Authenticate(Some(BEARER + token), verify, lookup) == Reject(Unauthorized(INVALID))
    ensures verify(token).Verified? && verify(token).claims.tokenType != Some("access")
            ==> Authenticate(Some(BEARER + token), verify, lookup) == Reject(Unauthorized(WRONG_TYPE))
    ensures verify(token).Verified? && verify(token).claims.tokenType == Some("access")
            && lookup(verify(token).claims.sub).None?
            ==> Authenticate(Some(BEARER + token), verify, lookup) == Reject(Unauthorized(NO_USER))
    ensures verify(token).Verified? && verify(token).claims.tokenType == Some("access")
            && lookup(verify(token).claims.sub).Some?
            && (!lookup(verify(token).claims.sub).value.activo
                || lookup(verify(token).claims.sub).value.deletedAt.Some?)
            ==> Authenticate(Some(BEARER + token), verify, lookup) == Reject(Unauthorized(INACTIVE))
    ensures verify(token).Verified? && verify(token).claims.tokenType == Some("access")
            && lookup(verify(token).claims.sub).Some?
            && lookup(verify(token).claims.sub).value.activo
            && lookup(verify(token).claims.sub).value.deletedAt.None?
            ==> Authenticate(Some(BEARER + token), verify, lookup).Accept?
  {
    BearerTokenIsFirstWord(token, None);
    assert BEARER + token + "" == BEARER + token;
  }

  /** `optionalAuth`: no header (or an empty one) goes on anonymously,
      anything else is exactly `authenticate`. */
  function OptionalAuth(header: Option<string>, verify: string -> Verification,
                        lookup: int -> Option<UserRow>): (o: Outcome)
    ensures !TruthyString(header) <==> o.Anonymous?
    ensures TruthyString(header) ==> o == Authenticate(header, verify, lookup)
  {
    if !TruthyString(header) then Anonymous else Authenticate(header, verify, lookup)
  }
}
