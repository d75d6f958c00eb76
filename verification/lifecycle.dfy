/**
 * The three places that decide whether a verification window has closed
 * disagree at the boundary instant: `PendingSignup.is_expired` counts the
 * expiry instant as expired, while the verification view and the cleanup
 * command only treat instants strictly after it as expired.
 */
module ExpiryBoundaries {
  import opened Wrappers
  import opened Accounts
  import opened PendingSignups
  import opened EmailVerification
  import opened CleanupUnverified

  /**
   * At the very instant `e` a pending signup expiring at `e` is already expired, yet a
   * verification link expiring at `e` still works and cleanup does not select its account.
   * One microsecond later all three agree that the window has closed.
   */
  lemma {:induction false} BoundaryInstant(p: PendingSignup, users: seq<User>, token: string, u: User, e: Time)
    requires p.expiresAt == e
    requires TokenHolders(users, token) == [u] && ExpiryOf(u) == Some(e)
    ensures IsExpired(p, e) && CheckToken(users, token, e).Ok? && !ExpiredPending(u, e)
    ensures IsExpired(p, e + 1) && CheckToken(users, token, e + 1) == Expired && ExpiredPending(u, e + 1)
  {
    assert u in TokenHolders(users, token);
    TokenOkWhenUnexpired(users, token, e, u);
    TokenOkWhenUnexpired(users, token, e + 1, u);
  }
}
