/** The `/refresh_token` route: four checks in a fixed order (a `jid` cookie is
    present, it verifies under the refresh secret, its user exists, its version
    snapshot is current), a new token pair only when all pass, and one opaque
    failure body otherwise.

    The route as written reads the version snapshot from the misspelt payload key
    `tokenVerion`, which no refresh token carries, so it never succeeds. `Decide`
    and the handler take the key they read as a parameter: `VersionClaimAsWritten`
    gives the route as written, `VersionClaim` the evidently intended one. */
module RefreshRoute {
  import opened Wrappers
  import Js
  import opened UserStore
  import opened Auth
  import Http

  const VersionClaim := "tokenVersion"
  const VersionClaimAsWritten := "tokenVerion"

  datatype Decision = Deny | Grant(user: User)

  /** `if (!token)`: an absent cookie and an empty one are both falsy. */
  predicate CookiePresent(jid: Option<string>)
  {
    jid.Some? && jid.value != ""
  }

  /** The guard chain, reading the version snapshot from payload key `versionKey`. */
  function Decide(c: Crypto, jid: Option<string>, rows: map<int, User>, versionKey: string): (d: Decision)
    ensures !CookiePresent(jid) ==> d == Deny
    ensures CookiePresent(jid) && c.verify(jid.value, RefreshTokenSecret).None? ==> d == Deny
    ensures d.Grant? <==>
              && CookiePresent(jid)
              && c.verify(jid.value, RefreshTokenSecret).Some?
              && var payload := c.verify(jid.value, RefreshTokenSecret).value;
                 && Js.Get(payload, "userId").Num?
                 && Js.Get(payload, "userId").n in rows
                 && Js.Get(payload, versionKey) == Js.Num(rows[Js.Get(payload, "userId").n].tokenVersion)
    ensures d.Grant? ==> d.user == rows[Js.Get(c.verify(jid.value, RefreshTokenSecret).value, "userId").n]
  {
    if !CookiePresent(jid) then Deny
    else
      match c.verify(jid.value, RefreshTokenSecret)
      case None => Deny
      case Some(payload) =>
        match FindById(rows, Js.Get(payload, "userId"))
        case None => Deny
        case Some(user) =>
          if Js.Num(user.tokenVersion) != Js.Get(payload, versionKey) then Deny else Grant(user)
  }

  const Denied := Http.RefreshBody(false, "")

  /** What the route sends: the refresh cookie it sets, if any, and the body. */
  datatype Reply = Reply(cookie: Option<string>, body: Http.RefreshBody)

  function Respond(c: Crypto, d: Decision): (r: Reply)
    ensures r.body.ok <==> d.Grant?
    ensures d.Deny? ==> r == Reply(None, Denied)
    ensures d.Grant? ==> r.cookie == Some(CreateRefreshToken(c, d.user)) && r.body.accessToken == CreateAccessToken(c, d.user)
  {
    match d
    case Deny => Reply(None, Denied)
    case Grant(user) => Reply(Some(CreateRefreshToken(c, user)), Http.RefreshBody(true, CreateAccessToken(c, user)))
  }

  /** The route handler, with the version check reading payload key `versionKey`:
      `VersionClaimAsWritten` is the handler as written, `VersionClaim` the corrected
      one. It only reads the table. */
  method RefreshToken(c: Crypto, jid: Option<string>, table: UserTable, res: Http.Response, versionKey: string)
    modifies res
    ensures unchanged(table)
    ensures var reply := Respond(c, Decide(c, jid, table.rows, versionKey));
            && res.body == Some(reply.body)
            && res.jid == (if reply.cookie.Some? then reply.cookie else old(res.jid))
  {
    if !CookiePresent(jid) {
      res.body := Some(Denied);
      return;
    }
    var token := jid.value;
    var verified := c.verify(token, RefreshTokenSecret);
    if verified.None? {
      res.body := Some(Denied);
      return;
    }
    var payload := verified.value;
    var user := FindById(table.rows, Js.Get(payload, "userId"));
    if user.None? {
      res.body := Some(Denied);
      return;
    }
    if Js.Num(user.value.tokenVersion) != Js.Get(payload, versionKey) {
      res.body := Some(Denied);
      return;
    }
    res.jid := Some(CreateRefreshToken(c, user.value));
    res.body := Some(Http.RefreshBody(true, CreateAccessToken(c, user.value)));
  }

  /** A caller cannot tell which check failed: every denial sends the same reply. */
  lemma DenialsIndistinguishable(c: Crypto, jid1: Option<string>, rows1: map<int, User>,
                                 jid2: Option<string>, rows2: map<int, User>, key: string)
    requires Decide(c, jid1, rows1, key).Deny? && Decide(c, jid2, rows2, key).Deny?
    ensures Respond(c, Decide(c, jid1, rows1, key)) == Respond(c, Decide(c, jid2, rows2, key)) == Reply(None, Denied)
  {
  }

  /** As written, the route grants only to a payload carrying the misspelt key:
      any cookie whose verified payload lacks it is denied, whatever the table holds. */
  lemma AsWrittenNeedsMisspeltKey(c: Crypto, jid: Option<string>, rows: map<int, User>)
    requires CookiePresent(jid) && c.verify(jid.value, RefreshTokenSecret).Some? ==>
               VersionClaimAsWritten !in c.verify(jid.value, RefreshTokenSecret).value
    ensures Decide(c, jid, rows, VersionClaimAsWritten) == Deny
  {
  }

  /** Hence the route as written denies every refresh token the server issues. */
  lemma AsWrittenDeniesIssuedTokens(c: Crypto, token: string, rows: map<int, User>, u: User)
    requires c.verify(token, RefreshTokenSecret) == Some(RefreshClaims(u))
    ensures Decide(c, Some(token), rows, VersionClaimAsWritten) == Deny
  {
  }

  /** With the intended key, a token issued for a row grants exactly when its
      snapshot is still that row's version, and then to that row. */
  lemma GrantsExactlyCurrentSnapshot(c: Crypto, token: string, rows: map<int, User>, u: User)
    requires token != "" && c.verify(token, RefreshTokenSecret) == Some(RefreshClaims(u))
    ensures Decide(c, Some(token), rows, VersionClaim).Grant? <==>
              u.id in rows && rows[u.id].tokenVersion == u.tokenVersion
    ensures Decide(c, Some(token), rows, VersionClaim).Grant? ==>
              Decide(c, Some(token), rows, VersionClaim).user == rows[u.id]
  {
  }

  /** The concrete input behind the misspelling: a user at version 0 presenting the
      refresh token issued for it is refused as written and served when corrected. */
  lemma MisspeltClaimRefusesFreshToken()
    ensures var u := User(1, "a@example.com", "hash", 0);
            var c := Crypto((p, n) => p, (p, h) => p == h, (o, k) => "jwt", (t, k) => Some(RefreshClaims(u)));
            && CreateRefreshToken(c, u) == "jwt"
            && Decide(c, Some("jwt"), map[1 := u], VersionClaimAsWritten) == Deny
            && Decide(c, Some("jwt"), map[1 := u], VersionClaim) == Grant(u)
  {
  }
}
