/**
 * `VerifyEmailView` and `_send_verification_email`: a verification link is
 * sorted into invalid, expired or usable; only the POST half of the two-step
 * flow activates, and re-sending overwrites the profile's token and expiry.
 */
module EmailVerification {
  import opened Wrappers
  import opened Accounts

  /** The token of a profile awaiting verification; `None` when there is no such token. */
  function PendingToken(u: User): Option<string> {
    if u.profile.Some? && u.profile.value.pendingEmailVerification then u.profile.value.emailToken else None
  }

  /** Whether this user's profile is awaiting verification under exactly this token. */
  predicate HoldsPendingToken(u: User, token: string) {
    PendingToken(u) == Some(token)
  }

  /** The users whose profile matches `get(email_token=token, pending_email_verification=True)`, in table order. */
  function TokenHolders(users: seq<User>, token: string): (r: seq<User>)
    ensures forall u :: u in r <==> u in users && HoldsPendingToken(u, token)
    ensures |r| <= |users|
  {
    if |users| == 0 then []
    else if HoldsPendingToken(users[0], token) then [users[0]] + TokenHolders(users[1..], token)
    else TokenHolders(users[1..], token)
  }

  /** Each holder is listed exactly as often as the table has it, so `get` sees one row per holder. */
  lemma {:induction false} TokenHoldersCounts(users: seq<User>, token: string, u: User)
    ensures multiset(TokenHolders(users, token))[u] == if HoldsPendingToken(u, token) then multiset(users)[u] else 0
  {
    if |users| > 0 {
      TokenHoldersCounts(users[1..], token, u);
      assert users == [users[0]] + users[1..];
    }
  }

  /** The token expiry recorded on a user's profile, if any. */
  function ExpiryOf(u: User): Option<Time> {
    if u.profile.Some? then u.profile.value.emailTokenExpiresAt else None
  }

  /** The token's expiry is set and lies strictly before `now`. */
  predicate TokenExpired(p: Profile, now: Time) {
    p.emailTokenExpiresAt.Some? && p.emailTokenExpiresAt.value < now
  }

  /**
   * The classification of a link: `Ambiguous` stands for the `MultipleObjectsReturned`
   * that `get` raises when several pending profiles carry the same token.
   */
  datatype TokenStatus = Invalid | Expired | Ok(user: User) | Ambiguous

  /** `VerifyEmailView._get_profile_for_token`. */
  function CheckToken(users: seq<User>, token: string, now: Time): (r: TokenStatus)
    ensures r == Invalid <==> forall u :: u in users ==> !HoldsPendingToken(u, token)
    ensures r.Ambiguous? <==> |TokenHolders(users, token)| > 1
    ensures r.Ok? ==> r.user in users && HoldsPendingToken(r.user, token) && !TokenExpired(r.user.profile.value, now)
    ensures r.Expired? ==> exists u :: u in users && HoldsPendingToken(u, token) && TokenExpired(u.profile.value, now)
  {
    var holders := TokenHolders(users, token);
    if |holders| == 0 then Invalid
    else
      assert holders[0] in holders;
      if |holders| > 1 then Ambiguous
      else if TokenExpired(holders[0].profile.value, now) then Expired
      else Ok(holders[0])
  }

  /** What the view answers: a result page, the confirmation page, or the activation of an account. */
  datatype VerifyResponse =
    | ResultPage(status: TokenStatus)
    | ConfirmPage(userId: UserId, token: string)
    | Activate(userId: UserId)
    | ServerError

  /** `VerifyEmailView.get`: shows the confirmation page for a usable token and never activates. */
  function VerifyGet(users: seq<User>, token: string, now: Time): (r: VerifyResponse)
    ensures !r.Activate?
    ensures r.ConfirmPage? <==> CheckToken(users, token, now).Ok?
    ensures r.ConfirmPage? ==> r.token == token
    ensures r.ResultPage? ==> r.status == CheckToken(users, token, now) && (r.status.Invalid? || r.status.Expired?)
  {
    match CheckToken(users, token, now)
    case Ok(u) => ConfirmPage(u.id, token)
    case Ambiguous => ServerError
    case s => ResultPage(s)
  }

  /**
   * `VerifyEmailView.post`: re-checks the token, re-checks that it still matches a pending
   * profile, and only then activates (the effect of `mark_verified` is not part of this model).
   */
  function VerifyPost(users: seq<User>, token: string, now: Time): (r: VerifyResponse)
    ensures r.Activate? <==> CheckToken(users, token, now).Ok?
    ensures r.Activate? ==> exists u :: u in users && u.id == r.userId && HoldsPendingToken(u, token)
                                        && !TokenExpired(u.profile.value, now)
    ensures !r.ConfirmPage?
  {
    match CheckToken(users, token, now)
    case Ok(u) =>
      var p := u.profile.value;
      if p.emailToken != Some(token) || !p.pendingEmailVerification then ResultPage(Invalid)
      else Activate(u.id)
    case Ambiguous => ServerError
    case s => ResultPage(s)
  }

  /** No two pending profiles share a token (tokens are fresh random values). */
  predicate DistinctPendingTokens(users: seq<User>) {
    forall i, j :: 0 <= i < j < |users| && PendingToken(users[i]).Some? ==> PendingToken(users[i]) != PendingToken(users[j])
  }

  /** With distinct pending tokens a link never matches two profiles. */
  lemma {:induction false} DistinctTokensNeverAmbiguous(users: seq<User>, token: string, now: Time)
    requires DistinctPendingTokens(users)
    ensures !CheckToken(users, token, now).Ambiguous?
  {
    AtMostOneHolder(users, token);
  }

  lemma {:induction false} AtMostOneHolder(users: seq<User>, token: string)
    requires DistinctPendingTokens(users)
    ensures |TokenHolders(users, token)| <= 1
  {
    if |users| > 0 {
      var rest := users[1..];
      assert DistinctPendingTokens(rest) by {
        forall i, j | 0 <= i < j < |rest| && PendingToken(rest[i]).Some?
          ensures PendingToken(rest[i]) != PendingToken(rest[j])
        {
          assert rest[i] == users[i + 1] && rest[j] == users[j + 1];
        }
      }
      if HoldsPendingToken(users[0], token) {
        forall j | 0 <= j < |rest| ensures !HoldsPendingToken(rest[j], token) {
          assert rest[j] == users[j + 1];
        }
        NoHolder(rest, token);
      } else {
        AtMostOneHolder(rest, token);
      }
    }
  }

  /** A usable link is exactly a pending token whose expiry is unset or not yet strictly past. */
  lemma TokenOkWhenUnexpired(users: seq<User>, token: string, now: Time, u: User)
    requires TokenHolders(users, token) == [u]
    ensures CheckToken(users, token, now).Ok? <==> ExpiryOf(u).None? || now <= ExpiryOf(u).value
    ensures CheckToken(users, token, now).Expired? <==> !CheckToken(users, token, now).Ok?
  {
  }

  /** The profile after `_send_verification_email`: a new token, valid 60 minutes, and pending again. */
  function Reissued(p: Profile, token: string, now: Time): (q: Profile)
    ensures q.id == p.id && q.isSeller == p.isSeller
    ensures q.pendingEmailVerification && q.emailToken == Some(token)
    ensures q.emailTokenExpiresAt == Some(now + TokenLifetime)
  {
    p.(emailToken := Some(token), emailTokenExpiresAt := Some(now + TokenLifetime), pendingEmailVerification := true)
  }

  /**
   * `_send_verification_email`: `freshToken` is the value `new_email_token()` produced and `now`
   * the clock reading; the message itself is sent outside this model.
   */
  method SendVerificationEmail(store: AccountStore, i: nat, freshToken: string, now: Time)
    requires i < |store.users| && store.users[i].profile.Some?
    requires store.Valid()
    modifies store
    ensures store.Valid()
    ensures store.users == old(store.users)[i := old(store.users)[i].(profile := Some(Reissued(old(store.users)[i].profile.value, freshToken, now)))]
  {
    var u := store.users[i];
    var p := Reissued(u.profile.value, freshToken, now);
    store.users := store.users[i := u.(profile := Some(p))];
  }

  /** The table after re-issuing user `i`'s token. */
  function ResendTable(users: seq<User>, i: nat, freshToken: string, now: Time): (r: seq<User>)
    requires i < |users| && users[i].profile.Some?
    ensures |r| == |users| && r[i].id == users[i].id
    ensures forall j :: 0 <= j < |users| && j != i ==> r[j] == users[j]
    ensures HoldsPendingToken(r[i], freshToken)
  {
    users[i := users[i].(profile := Some(Reissued(users[i].profile.value, freshToken, now)))]
  }

  /**
   * Re-sending overwrites the old token: once no other profile carries it, the old link
   * is invalid, whatever the time.
   */
  lemma {:induction false} ResendInvalidatesOldToken(users: seq<User>, i: nat, oldToken: string, freshToken: string, now: Time, t: Time)
    requires i < |users| && users[i].profile.Some?
    requires freshToken != oldToken
    requires forall j :: 0 <= j < |users| && j != i ==> !HoldsPendingToken(users[j], oldToken)
    ensures CheckToken(ResendTable(users, i, freshToken, now), oldToken, t) == Invalid
  {
    var r := ResendTable(users, i, freshToken, now);
    forall u | u in r ensures !HoldsPendingToken(u, oldToken) {
      var j :| 0 <= j < |r| && r[j] == u;
    }
  }

  /**
   * The new link works for exactly 60 minutes: usable up to and including `now + 60 min`,
   * expired strictly after it, provided no other pending profile carries the same token.
   */
  lemma {:induction false} ResentTokenLifetime(users: seq<User>, i: nat, freshToken: string, now: Time, t: Time)
    requires i < |users| && users[i].profile.Some?
    requires forall j :: 0 <= j < |users| && j != i ==> !HoldsPendingToken(users[j], freshToken)
    ensures CheckToken(ResendTable(users, i, freshToken, now), freshToken, t).Ok? <==> t <= now + TokenLifetime
    ensures CheckToken(ResendTable(users, i, freshToken, now), freshToken, t).Expired? <==> t > now + TokenLifetime
  {
    var r := ResendTable(users, i, freshToken, now);
    SingleHolder(r, i, freshToken);
  }

  /** When exactly one row holds the token, the holder list is that row. */
  lemma {:induction false} SingleHolder(users: seq<User>, i: nat, token: string)
    requires i < |users| && HoldsPendingToken(users[i], token)
    requires forall j :: 0 <= j < |users| && j != i ==> !HoldsPendingToken(users[j], token)
    ensures TokenHolders(users, token) == [users[i]]
  {
    if i == 0 {
      NoHolder(users[1..], token);
    } else {
      SingleHolder(users[1..], i - 1, token);
    }
  }

  lemma {:induction false} NoHolder(users: seq<User>, token: string)
    requires forall j :: 0 <= j < |users| ==> !HoldsPendingToken(users[j], token)
    ensures TokenHolders(users, token) == []
  {
    if |users| > 0 {
      NoHolder(users[1..], token);
    }
  }
}
