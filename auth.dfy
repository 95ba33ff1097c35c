/** The cryptographic collaborators the server calls but does not implement:
    bcrypt for passwords and jsonwebtoken for signed, expiring tokens. They are
    uninterpreted here: each is a function value the caller supplies. The two
    token builders record the payloads the server's token module signs. */
module Auth {
  import opened Wrappers
  import Js
  import opened UserStore

  /** The bcrypt cost factor `register` hashes with. */
  const BcryptCost := 12

  /** Which environment secret signs or verifies a token. */
  datatype Secret = AccessTokenSecret | RefreshTokenSecret

  datatype Crypto = Crypto(
    /** bcrypt `hash(plaintext, cost)` */
    hash: (string, nat) -> string,
    /** bcrypt `compare(plaintext, hash)` */
    compare: (string, string) -> bool,
    /** jsonwebtoken `sign(payload, secret)`, expiry included */
    sign: (Js.Object, Secret) -> string,
    /** jsonwebtoken `verify(token, secret)` at the current time: the payload, or
        None when the signature does not verify or the token has expired */
    verify: (string, Secret) -> Option<Js.Object>)

  /** The payload of an access token: the user id only. */
  function AccessClaims(u: User): (p: Js.Object)
    ensures Js.Get(p, "userId") == Js.Num(u.id)
    ensures "tokenVersion" !in p
  {
    map["userId" := Js.Num(u.id)]
  }

  /** The payload of a refresh token: the user id and a snapshot of its token version. */
  function RefreshClaims(u: User): (p: Js.Object)
    ensures Js.Get(p, "userId") == Js.Num(u.id)
    ensures Js.Get(p, "tokenVersion") == Js.Num(u.tokenVersion)
    ensures "tokenVerion" !in p
  {
    map["userId" := Js.Num(u.id), "tokenVersion" := Js.Num(u.tokenVersion)]
  }

  function CreateAccessToken(c: Crypto, u: User): string
  {
    c.sign(AccessClaims(u), AccessTokenSecret)
  }

  function CreateRefreshToken(c: Crypto, u: User): string
  {
    c.sign(RefreshClaims(u), RefreshTokenSecret)
  }
}
