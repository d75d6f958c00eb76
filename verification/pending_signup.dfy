/**
 * The `PendingSignup` record: a signup normalised from raw form input and
 * stamped with a 60-minute validity window.
 */
module PendingSignups {
  import opened Text
  import opened Accounts

  datatype PendingSignup = PendingSignup(
    isAdmin: bool,
    firstName: string,
    lastName: string,
    username: string,
    email: string,
    passwordHash: string,
    isSeller: bool,
    providesService: bool,
    phoneNumber: string,
    createdAt: Time,
    expiresAt: Time)

  /** A text field with no whitespace at either end. */
  predicate Trimmed(s: string) {
    s == [] || (!IsSpace(s[0]) && !IsSpace(s[|s| - 1]))
  }

  /** What `from_raw` guarantees of every record it builds. */
  predicate Normalised(p: PendingSignup) {
    && Trimmed(p.username) && Trimmed(p.firstName) && Trimmed(p.lastName) && Trimmed(p.phoneNumber)
    && Trimmed(p.email) && forall k :: 0 <= k < |p.email| ==> !IsUpper(p.email[k])
  }

  /**
   * `PendingSignup.from_raw`. The password hash stands for `make_password(raw_password)`,
   * which is computed outside this model; `now` is the single clock reading both
   * timestamps use. The flags default to false and the phone number to "".
   */
  function FromRaw(
    username: string, firstName: string, lastName: string, email: string,
    passwordHash: string, now: Time,
    isSeller: bool := false, providesService: bool := false, isAdmin: bool := false,
    phoneNumber: string := ""): (p: PendingSignup)
    ensures Normalised(p)
    ensures p.createdAt == now && p.expiresAt == now + TokenLifetime
    ensures p.username == Strip(username) && p.firstName == Strip(firstName) && p.lastName == Strip(lastName)
    ensures p.phoneNumber == Strip(phoneNumber) && p.email == Lower(Strip(email))
    ensures p.passwordHash == passwordHash
    ensures p.isSeller == isSeller && p.providesService == providesService && p.isAdmin == isAdmin
  {
    LowerStripCommute(email);
    PendingSignup(
      isAdmin := isAdmin,
      firstName := Strip(firstName),
      lastName := Strip(lastName),
      username := Strip(username),
      email := Lower(Strip(email)),
      passwordHash := passwordHash,
      isSeller := isSeller,
      providesService := providesService,
      phoneNumber := Strip(phoneNumber),
      createdAt := now,
      expiresAt := now + TokenLifetime)
  }

  /** `PendingSignup.is_expired`: expired from the expiry instant on. */
  predicate IsExpired(p: PendingSignup, now: Time) {
    now >= p.expiresAt
  }

  /** Normalising already-normalised input changes nothing: `from_raw` is idempotent on its own output. */
  lemma {:induction false} FromRawIdempotent(p: PendingSignup)
    requires Normalised(p) && p.expiresAt == p.createdAt + TokenLifetime
    ensures FromRaw(p.username, p.firstName, p.lastName, p.email, p.passwordHash, p.createdAt,
                    p.isSeller, p.providesService, p.isAdmin, p.phoneNumber) == p
  {
    NormalisedFieldsFixed(p);
  }

  lemma {:induction false} NormalisedFieldsFixed(p: PendingSignup)
    requires Normalised(p)
    ensures Strip(p.username) == p.username && Strip(p.firstName) == p.firstName
    ensures Strip(p.lastName) == p.lastName && Strip(p.phoneNumber) == p.phoneNumber
    ensures Lower(Strip(p.email)) == p.email
  {
    StripFixesAll(p.username, p.firstName, p.lastName, p.phoneNumber);
    NormalisedEmailFixed(p.email);
  }

  lemma NormalisedEmailFixed(e: string)
    requires Trimmed(e) && forall k :: 0 <= k < |e| ==> !IsUpper(e[k])
    ensures Lower(Strip(e)) == e
  {
    StripOfStripped(e);
    LowerOfLowerCase(e);
  }

  lemma StripFixesAll(a: string, b: string, c: string, d: string)
    requires Trimmed(a) && Trimmed(b) && Trimmed(c) && Trimmed(d)
    ensures Strip(a) == a && Strip(b) == b && Strip(c) == c && Strip(d) == d
  {
    StripOfStripped(a);
    StripOfStripped(b);
    StripOfStripped(c);
    StripOfStripped(d);
  }

  /** A pending signup is live for exactly 60 minutes: still valid one microsecond before
      its expiry, already expired at the expiry instant itself. */
  lemma ExpiresAfterSixtyMinutes(username: string, firstName: string, lastName: string, email: string,
                                 hash: string, now: Time, t: Time)
    ensures IsExpired(FromRaw(username, firstName, lastName, email, hash, now), t) <==> t >= now + TokenLifetime
    ensures !IsExpired(FromRaw(username, firstName, lastName, email, hash, now), now + TokenLifetime - 1)
    ensures IsExpired(FromRaw(username, firstName, lastName, email, hash, now), now + TokenLifetime)
  {
  }

  /** Left unspecified, the flags are false and the phone number empty. */
  lemma DefaultFlags(username: string, firstName: string, lastName: string, email: string, hash: string, now: Time)
    ensures var p := FromRaw(username, firstName, lastName, email, hash, now);
            !p.isSeller && !p.providesService && !p.isAdmin && p.phoneNumber == ""
  {
  }
}
