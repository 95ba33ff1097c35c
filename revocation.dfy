/** How the operations combine: a refresh token is redeemable while its version
    snapshot is the user's current version, a revoke outdates every token issued
    before it, and nothing but a revoke of that user does. These lemmas use the
    route with the version check reading `tokenVersion`. */
module Revocation {
  import opened Wrappers
  import opened UserStore
  import opened Auth
  import opened UserResolver
  import opened RefreshRoute
  import Http

  /** Rotation: a refresh token issued for a row of the current table, presented
      while it still verifies, yields a pair built from that same row. */
  lemma IssuedTokenRotates(c: Crypto, s: Store, id: int)
    requires Consistent(s) && id in s.rows
    requires CreateRefreshToken(c, s.rows[id]) != ""
    requires c.verify(CreateRefreshToken(c, s.rows[id]), RefreshTokenSecret) == Some(RefreshClaims(s.rows[id]))
    ensures Decide(c, Some(CreateRefreshToken(c, s.rows[id])), s.rows, VersionClaim) == Grant(s.rows[id])
    ensures Respond(c, Decide(c, Some(CreateRefreshToken(c, s.rows[id])), s.rows, VersionClaim))
            == Reply(Some(CreateRefreshToken(c, s.rows[id])), Http.RefreshBody(true, CreateAccessToken(c, s.rows[id])))
  {
  }

  /** The refresh cookie a successful login sets is redeemable on the same table. */
  lemma LoginCookieRedeemable(c: Crypto, s: Store, email: string, password: string)
    requires Consistent(s)
    requires Authenticate(s.rows, email, password, c).Success?
    requires var u := Authenticate(s.rows, email, password, c).value;
             CreateRefreshToken(c, u) != "" &&
             c.verify(CreateRefreshToken(c, u), RefreshTokenSecret) == Some(RefreshClaims(u))
    ensures var u := Authenticate(s.rows, email, password, c).value;
            Decide(c, Some(CreateRefreshToken(c, u)), s.rows, VersionClaim) == Grant(u)
  {
  }

  /** Revocation: a token whose snapshot was taken before a revoke of its user is
      refused after it, however many mutations follow and though it has not expired. */
  lemma RevokedTokenRefused(c: Crypto, token: string, s: Store, pre: seq<Mutation>, id: int, post: seq<Mutation>)
    requires Consistent(s) && id in Run(s, pre).rows
    requires c.verify(token, RefreshTokenSecret) == Some(RefreshClaims(Run(s, pre).rows[id]))
    ensures Decide(c, Some(token), Run(s, pre + [RevokeUser(id)] + post).rows, VersionClaim) == Deny
  {
    var u := Run(s, pre).rows[id];
    var after := Run(s, pre + [RevokeUser(id)] + post);
    RevokeOutdatesSnapshot(s, pre, id, post);
    assert u.id == id;
    if token != "" {
      GrantsExactlyCurrentSnapshot(c, token, after.rows, u);
    }
  }

  /** Tokens stay redeemable across mutations that do not revoke their user:
      registrations and revokes of other users. */
  lemma OtherMutationsKeepToken(c: Crypto, token: string, s: Store, ms: seq<Mutation>, id: int)
    requires Consistent(s) && id in s.rows && token != ""
    requires c.verify(token, RefreshTokenSecret) == Some(RefreshClaims(s.rows[id]))
    requires forall i :: 0 <= i < |ms| ==> ms[i] != RevokeUser(id)
    ensures Decide(c, Some(token), Run(s, ms).rows, VersionClaim) == Grant(s.rows[id])
  {
    UntouchedWithoutRevoke(s, ms, id);
    GrantsExactlyCurrentSnapshot(c, token, Run(s, ms).rows, s.rows[id]);
  }
}
