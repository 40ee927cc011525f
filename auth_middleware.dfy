/** The auth gate in front of the private routes: `protect` reads a bearer
    token from the Authorization header, verifies it and attaches the
    token's user (without the password) to the request; `admin` lets
    through only requests whose user has the role "admin". */
module AuthMiddleware {
  import opened Common
  import opened Text
  import opened Tokens
  import opened UserModel

  /** The parts of an incoming request the gate reads and writes. */
  class Request {
    var authorization: Option<string>
    var user: Option<PublicUser>

    constructor (authorization: Option<string>)
      ensures this.authorization == authorization && user == None
    {
      this.authorization := authorization;
      user := None;
    }
  }

  /** The header is present, non-empty and starts with "Bearer". */
  predicate HasBearer(header: Option<string>) {
    Truthy(header) && StartsWith(header.value, "Bearer")
  }

  /** `header.split(' ')[1]`: `None` when the header has no space. */
  function TokenOf(header: string): (t: Option<string>)
    ensures t.None? <==> ' ' !in header
  {
    var parts := Split(header, ' ');
    if |parts| >= 2 then Some(parts[1])
    else
      assert header == Join(parts, ' ') == parts[0];
      None
  }

  /** What the header decides: the subject of a verified token, or why the
      request is refused. */
  datatype Gate = Subject(id: nat) | Refused(reason: AuthFailure)

  /** The header check and `jwt.verify`. A header that is absent or does
      not start with "Bearer" carries no token; one that does but has no
      second segment, or whose token does not verify, is an invalid token. */
  function Authenticate(header: Option<string>, sign: Signer, now: nat): (g: Gate)
    ensures g == Refused(NoToken) <==> !HasBearer(header)
    ensures g.Subject? <==>
      HasBearer(header) && TokenOf(header.value).Some? && Verify(sign, TokenOf(header.value).value, now).Some?
    ensures g.Subject? ==> Verify(sign, TokenOf(header.value).value, now) == Some(g.id)
  {
    if !HasBearer(header) then Refused(NoToken)
    else
      var token := TokenOf(header.value);
      if token.None? then Refused(InvalidToken)
      else
        var decoded := Verify(sign, token.value, now);
        if decoded.None? then Refused(InvalidToken) else Subject(decoded.value)
  }

  /** A header "Bearer <token>" with a token issued for `id` authenticates
      as `id` until the token expires, and is an invalid token after. */
  lemma BearerIssuedAuthenticates(sign: Signer, id: nat, issuedAt: nat, now: nat)
    ensures Authenticate(Some("Bearer " + Issue(sign, id, issuedAt)), sign, now) ==
      if now < issuedAt + ThirtyDays then Subject(id) else Refused(InvalidToken)
  {
    var token := Issue(sign, id, issuedAt);
    var header := "Bearer " + token;
    assert header == "Bearer" + [' '] + token;
    assert header[..6] == "Bearer";
    IssuedHasNoSpace(sign, id, issuedAt);
    SplitAfterPart("Bearer", token, ' ');
    SplitNoSep(token, ' ');
    assert Split(header, ' ') == ["Bearer", token];
    VerifyIssued(sign, id, issuedAt, now);
  }

  /** A header that starts with "Bearer" but holds no space, such as
      "Bearer" alone, is refused as an invalid token, not a missing one. */
  lemma BearerWithoutTokenIsInvalid(header: string, sign: Signer, now: nat)
    requires StartsWith(header, "Bearer") && ' ' !in header
    ensures Authenticate(Some(header), sign, now) == Refused(InvalidToken)
  {
  }

  /** `protect`: a refused request is answered `unauthorized` with its
      reason and the request is left alone; otherwise the token's user,
      without the password, is attached (null when no such user exists)
      and the request goes on to the handler (`None`). */
  method Protect(req: Request, users: map<nat, User>, sign: Signer, now: nat) returns (refusal: Option<Code>)
    modifies req`user
    ensures var g := Authenticate(req.authorization, sign, now);
      && (g.Refused? ==> refusal == Some(Unauthorized(g.reason)) && req.user == old(req.user))
      && (g.Subject? ==>
           && refusal == None
           && req.user == (if g.id in users then Some(WithoutPassword(g.id, users[g.id])) else None))
  {
    var token: Option<string> := None;
    if HasBearer(req.authorization) {
      token := TokenOf(req.authorization.value);
      var decoded := if token.Some? then Verify(sign, token.value, now) else None;
      if decoded.None? {
        return Some(Unauthorized(InvalidToken));
      }
      var id := decoded.value;
      req.user := if id in users then Some(WithoutPassword(id, users[id])) else None;
      return None;
    }
    if token.None? {
      return Some(Unauthorized(NoToken));
    }
  }

  /** `admin`: passes (`None`) exactly when a user is attached and its role
      is exactly "admin"; otherwise `forbidden`. */
  function Admin(user: Option<PublicUser>): (refusal: Option<Code>)
    ensures refusal == None <==> user.Some? && user.value.role == AdminRole
    ensures refusal != None ==> refusal == Some(Forbidden)
  {
    if user.Some? && user.value.role == AdminRole then None else Some(Forbidden)
  }

  /** `generateToken(id)` at time `now`: the token `Protect` accepts for
      `id` for the next 30 days. */
  function GenerateToken(sign: Signer, id: nat, now: nat): (token: string)
    ensures ' ' !in token
    ensures forall t :: now <= t < now + ThirtyDays ==> Verify(sign, token, t) == Some(id)
  {
    IssuedHasNoSpace(sign, id, now);
    IssuedVerifiesUntilExpiry(sign, id, now);
    Issue(sign, id, now)
  }

  lemma IssuedVerifiesUntilExpiry(sign: Signer, id: nat, now: nat)
    ensures forall t :: now <= t < now + ThirtyDays ==> Verify(sign, Issue(sign, id, now), t) == Some(id)
  {
    forall t | now <= t < now + ThirtyDays ensures Verify(sign, Issue(sign, id, now), t) == Some(id) {
      VerifyIssued(sign, id, now, t);
    }
  }
}
