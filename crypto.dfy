/** The two libraries the controllers call for credentials, kept abstract:
    bcrypt's `hash`/`compare` and jsonwebtoken's `sign`/`verify` (with the
    process's JWT secret folded in). Every operation that needs them takes
    them as a parameter, so whatever is proved holds for every choice of
    these functions, except where a lemma names an assumption about them. */
module Crypto {
  import opened Common

  /** The claims `loginUser` signs: the user's id and email. */
  datatype TokenPayload = TokenPayload(userId: Id, email: string)

  /** `jwt.sign(payload, secret)` and `jwt.verify(token, secret)`; `verify`
      is partial: it either throws (`None`) or yields the decoded payload. */
  datatype Jwt = Jwt(sign: TokenPayload -> string, verify: string -> Option<TokenPayload>)

  /** `bcrypt.hash(password, 10)` and `bcrypt.compare(password, hash)`. */
  datatype Bcrypt = Bcrypt(hash: string -> string, compare: (string, string) -> bool)

  /** What jsonwebtoken guarantees for tokens it issued itself (ignoring
      expiry): they are non-empty and decode to the signed payload. */
  ghost predicate VerifiesOwnTokens(jwt: Jwt) {
    forall p: TokenPayload {:trigger jwt.sign(p)} ::
      jwt.sign(p) != "" && jwt.verify(jwt.sign(p)) == Some(p)
  }

  /** What bcrypt guarantees: a password matches its own hash. */
  ghost predicate MatchesOwnHash(bcrypt: Bcrypt) {
    forall pw: string {:trigger bcrypt.hash(pw)} :: bcrypt.compare(pw, bcrypt.hash(pw))
  }
}
