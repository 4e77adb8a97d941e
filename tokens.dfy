/**
 * The token codec: JSON Web Tokens signed and verified with a secret key by the
 * jsonwebtoken library, and `createToken`, which signs a user's id and admin flag.
 * The library is kept abstract: a Codec holds its sign and verify functions, and the
 * laws the rest of the model relies on are collected in the predicate Faithful.
 */
module Tokens {
  import opened Wrappers
  import JsText

  /**
   * A decoded token payload as the middleware stores it: the `id` claim (absent when
   * the payload has none), the truthiness of the `isAdmin` claim, and `iat`.
   */
  datatype Claims = Claims(id: Option<int>, isAdmin: bool, iat: Option<int>)

  type Secret = string

  /** jwt.sign and jwt.verify; verify gives None where the library throws. */
  datatype Codec = Codec(sign: (Secret, Claims) -> string, verify: (Secret, string) -> Option<Claims>)

  /**
   * What the model assumes of the library: a token verifies, with the same key, to the
   * claims it was signed with; it never verifies with a different key; and a compact
   * token (base64url segments joined by dots) has no whitespace at its ends.
   */
  ghost predicate Faithful(codec: Codec) {
    && (forall key, c :: codec.verify(key, codec.sign(key, c)) == Some(c))
    && (forall key, other, c :: key != other ==> codec.verify(other, codec.sign(key, c)) == None)
    && (forall key, c :: JsText.NoOuterWhitespace(codec.sign(key, c)))
  }

  /** The user fields `createToken` reads; `isAdmin` may be missing. */
  datatype TokenSubject = TokenSubject(id: int, isAdmin: Option<bool>)

  /** The claims `createToken` signs at time `now`: id, isAdmin (false when missing), iat. */
  function SubjectClaims(user: TokenSubject, now: int): (c: Claims)
    ensures c.id == Some(user.id) && c.iat == Some(now)
    ensures c.isAdmin <==> user.isAdmin == Some(true)
  {
    Claims(Some(user.id), user.isAdmin.GetOr(false), Some(now))
  }

  /** createToken(user), issued at time `now` with key `secret`. */
  function CreateToken(codec: Codec, secret: Secret, user: TokenSubject, now: int): (token: string)
    ensures Faithful(codec) ==> JsText.NoOuterWhitespace(token)
    ensures Faithful(codec) ==> forall other :: other != secret ==> codec.verify(other, token) == None
  {
    codec.sign(secret, SubjectClaims(user, now))
  }

  /** Verifying a created token with the same key yields {id, isAdmin, iat}. */
  lemma CreateTokenRoundTrip(codec: Codec, secret: Secret, user: TokenSubject, now: int)
    requires Faithful(codec)
    ensures codec.verify(secret, CreateToken(codec, secret, user, now))
            == Some(Claims(Some(user.id), user.isAdmin == Some(true), Some(now)))
  {
  }
}
