/**
 * The access-control middleware: `authenticateJWT` attaches the identity carried by a
 * bearer token to the response locals, and the guards `ensureAdmin` and
 * `ensureCorrectUserOrAdmin` decide whether a request may go on.
 */
module AuthMiddleware {
  import opened Wrappers
  import opened JsText
  import opened Tokens

  /** An error handed to `next(err)`: its HTTP status and message. */
  datatype HttpError = HttpError(status: int, message: string)

  /** How a middleware hands control on: `next()` or `next(err)`. */
  datatype Next = Continue | Reject(error: HttpError)

  /** The error both guards raise. */
  const Forbidden := HttpError(403, "Unauthorized")

  /** Request headers by lower-case name. */
  type Headers = map<string, string>

  /** The parts of an Express request the middleware reads. */
  class Request {
    const headers: Option<Headers>
    const params: map<string, string>

    constructor (headers: Option<Headers>, params: map<string, string>)
      ensures this.headers == headers && this.params == params
    {
      this.headers := headers;
      this.params := params;
    }
  }

  /** `res.locals`: the attached identity and whatever else earlier handlers stored. */
  class Locals {
    var user: Option<Claims>
    var others: map<string, string>

    constructor (user: Option<Claims>, others: map<string, string>)
      ensures this.user == user && this.others == others
    {
      this.user := user;
      this.others := others;
    }
  }

  /** The header starts with `Bearer ` or `bearer ` (the regex /^[Bb]earer /). */
  predicate HasBearerScheme(header: string) {
    |header| >= 7 && (header[..7] == "Bearer " || header[..7] == "bearer ")
  }

  /** `header.replace(/^[Bb]earer /, "")`: removes that prefix once, keeps anything else. */
  function StripBearer(header: string): (r: string)
    ensures HasBearerScheme(header) ==> header == header[..7] + r
    ensures !HasBearerScheme(header) ==> r == header
  {
    if HasBearerScheme(header) then header[7..] else header
  }

  /**
   * The token authenticateJWT passes to jwt.verify, or None when it does not look for
   * one: no headers, no `authorization` header, or an empty (falsy) one.
   */
  function AuthorizationToken(headers: Option<Headers>): (r: Option<string>)
    ensures r.Some? <==> headers.Some? && "authorization" in headers.value
                         && headers.value["authorization"] != ""
    ensures r.Some? ==> NoOuterWhitespace(r.value)
  {
    if headers.Some? && "authorization" in headers.value && headers.value["authorization"] != "" then
      Some(Trim(StripBearer(headers.value["authorization"])))
    else
      None
  }

  /**
   * `res.locals.user` after authenticateJWT: the verified claims when there is a token
   * that verifies, and the previous value otherwise.
   */
  function AttachedUser(before: Option<Claims>, headers: Option<Headers>, codec: Codec, secret: Secret): (r: Option<Claims>)
    ensures AuthorizationToken(headers).None? ==> r == before
    ensures AuthorizationToken(headers).Some? ==>
              var decoded := codec.verify(secret, AuthorizationToken(headers).value);
              r == if decoded.Some? then decoded else before
  {
    match AuthorizationToken(headers)
    case None => before
    case Some(token) =>
      match codec.verify(secret, token)
      case Some(claims) => Some(claims)
      case None => before
  }

  /**
   * authenticateJWT(req, res, next): never rejects; it only overwrites
   * `res.locals.user` when the token verifies, and leaves the rest of locals alone.
   */
  method AuthenticateJWT(req: Request, locals: Locals, codec: Codec, secret: Secret) returns (next: Next)
    modifies locals`user
    ensures next == Continue
    ensures locals.user == AttachedUser(old(locals.user), req.headers, codec, secret)
    ensures locals.others == old(locals.others)
  {
    var authHeader: Option<string> := None;
    if req.headers.Some? && "authorization" in req.headers.value {
      authHeader := Some(req.headers.value["authorization"]);
    }
    if authHeader.Some? && authHeader.value != "" {
      var token := Trim(StripBearer(authHeader.value));
      var decoded := codec.verify(secret, token);
      if decoded.Some? {
        locals.user := decoded;
      }
    }
    next := Continue;
  }

  /** ensureAdmin: go on iff an identity is attached and its isAdmin is truthy. */
  function EnsureAdmin(user: Option<Claims>): (r: Next)
    ensures r == Continue <==> user.Some? && user.value.isAdmin
    ensures r != Continue ==> r == Reject(Forbidden) && r.error.status == 403
  {
    if user.None? || !user.value.isAdmin then Reject(Forbidden) else Continue
  }

  /** `+req.params.id`; None is NaN (also when the parameter is missing). */
  function ParamId(params: map<string, string>): (n: Option<int>)
    ensures "id" !in params ==> n.None?
    ensures "id" in params && params["id"] != [] && AllDigits(params["id"]) ==>
              n == Unsigned(params["id"], 10) && n.Some? && n.value >= 0
  {
    if "id" in params then
      var text := params["id"];
      if text != [] && AllDigits(text) then StringToNumberOfDigits(text); StringToNumber(text)
      else StringToNumber(text)
    else None
  }

  /** `user.id === n`: false when either side is undefined or NaN. */
  predicate SameId(id: Option<int>, n: Option<int>) {
    id.Some? && n.Some? && id.value == n.value
  }

  /**
   * ensureCorrectUserOrAdmin: go on iff an identity is attached and it is an admin or
   * its id equals the numeric value of the `id` path parameter.
   */
  function EnsureCorrectUserOrAdmin(user: Option<Claims>, params: map<string, string>): (r: Next)
    ensures r == Continue <==> user.Some? && (user.value.isAdmin || SameId(user.value.id, ParamId(params)))
    ensures r != Continue ==> r == Reject(Forbidden) && r.error.status == 403
  {
    if !(user.Some? && (user.value.isAdmin || SameId(user.value.id, ParamId(params)))) then
      Reject(Forbidden)
    else
      Continue
  }

  /** Whatever passes ensureAdmin passes ensureCorrectUserOrAdmin, for every path. */
  lemma AdminPassesOwnershipGuard(user: Option<Claims>, params: map<string, string>)
    requires EnsureAdmin(user) == Continue
    ensures EnsureCorrectUserOrAdmin(user, params) == Continue
  {
  }

  /** With no identity attached both guards reject with 403, whatever the parameters. */
  lemma AnonymousRejected(params: map<string, string>)
    ensures EnsureAdmin(None) == Reject(Forbidden)
    ensures EnsureCorrectUserOrAdmin(None, params) == Reject(Forbidden)
  {
  }

  /** A non-admin may reach `/users/<n>` exactly for their own id `n`. */
  lemma OwnerPassesOwnPath(claims: Claims, n: nat)
    requires claims.id == Some(n)
    ensures EnsureCorrectUserOrAdmin(Some(claims), map["id" := NatToString(n)]) == Continue
  {
    StringToNumberOfNatToString(n);
  }

  /** A non-admin whose id differs from the path's numeric id is rejected. */
  lemma NonOwnerRejected(claims: Claims, n: nat)
    requires !claims.isAdmin && claims.id != Some(n)
    ensures EnsureCorrectUserOrAdmin(Some(claims), map["id" := NatToString(n)]) == Reject(Forbidden)
  {
    StringToNumberOfNatToString(n);
  }

  /** Only one leading `Bearer ` or `bearer ` is removed; the token itself is kept whole. */
  lemma BearerHeaderToken(scheme: string, token: string)
    requires scheme == "Bearer " || scheme == "bearer "
    requires NoOuterWhitespace(token)
    ensures AuthorizationToken(Some(map["authorization" := scheme + token])) == Some(token)
  {
    var header := scheme + token;
    assert header[..7] == scheme;
    assert StripBearer(header) == token;
  }

  /** Any other scheme spelling, such as `BEARER `, is not removed and reaches verify. */
  lemma OtherSchemeKept(token: string)
    requires token != [] && NoOuterWhitespace(token)
    ensures AuthorizationToken(Some(map["authorization" := "BEARER " + token])) == Some("BEARER " + token)
  {
    var header := "BEARER " + token;
    assert header[1] == 'E' && "Bearer "[1] == 'e' && "bearer "[1] == 'e';
    assert !HasBearerScheme(header);
    assert header[0] == 'B' && header[|header| - 1] == token[|token| - 1];
    assert !IsWhitespace('B');
    assert NoOuterWhitespace(header);
  }

  /** A token the server signed is attached as the request's identity. */
  lemma IssuedTokenAttached(codec: Codec, secret: Secret, claims: Claims, before: Option<Claims>)
    requires Faithful(codec)
    ensures AttachedUser(before, Some(map["authorization" := "Bearer " + codec.sign(secret, claims)]), codec, secret)
            == Some(claims)
  {
    var token := codec.sign(secret, claims);
    BearerHeaderToken("Bearer ", token);
  }

  /** A token signed with another key leaves the locals as they were. */
  lemma ForeignTokenIgnored(codec: Codec, secret: Secret, other: Secret, claims: Claims, before: Option<Claims>)
    requires Faithful(codec) && other != secret
    ensures AttachedUser(before, Some(map["authorization" := "Bearer " + codec.sign(other, claims)]), codec, secret)
            == before
  {
    var token := codec.sign(other, claims);
    BearerHeaderToken("Bearer ", token);
  }

  /** The request cases of the middleware's own tests, evaluated. */
  lemma GuardExamples()
    ensures EnsureAdmin(Some(Claims(Some(1), true, None))) == Continue
    ensures EnsureAdmin(Some(Claims(None, false, None))) == Reject(Forbidden)
    ensures EnsureCorrectUserOrAdmin(Some(Claims(None, true, None)), map["id" := "2"]) == Continue
    ensures EnsureCorrectUserOrAdmin(Some(Claims(Some(1), false, None)), map["id" := "1"]) == Continue
    ensures EnsureCorrectUserOrAdmin(Some(Claims(Some(1), false, None)), map["id" := "3"]) == Reject(Forbidden)
    ensures EnsureCorrectUserOrAdmin(None, map["id" := "4"]) == Reject(Forbidden)
  {
    StringToNumberOfNatToString(1);
    StringToNumberOfNatToString(3);
  }
}
