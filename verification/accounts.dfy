/**
 * The identity tables as the rest of the model sees them: a user row and the
 * one-to-one profile that carries the seller flag and the e-mail verification
 * state. Only the fields the modelled code reads or writes are kept.
 */
module Accounts {
  import opened Wrappers

  /** An instant, in microseconds (the resolution of a Python `datetime`). */
  type Time = int

  const Minute: int := 60_000_000

  /** Verification links and pending signups stay valid for 60 minutes (60 * Minute). */
  const TokenLifetime: int := 3_600_000_000

  type UserId = nat
  type ProfileId = nat

  /** The `UserProfile` row: seller flag and verification state. */
  datatype Profile = Profile(
    id: ProfileId,
    isSeller: bool,
    pendingEmailVerification: bool,
    emailToken: Option<string>,
    emailTokenExpiresAt: Option<Time>)

  /** The user row; `profile` is `None` when the user has no profile (`hasattr(user, 'profile')` fails). */
  datatype User = User(id: UserId, username: string, email: string, profile: Option<Profile>)

  /** User ids are the table's primary key. */
  predicate DistinctUserIds(users: seq<User>) {
    forall i, j :: 0 <= i < j < |users| ==> users[i].id != users[j].id
  }

  /** The ids of the given users. */
  function UserIds(users: seq<User>): (ids: set<UserId>)
    ensures forall u :: u in users ==> u.id in ids
    ensures forall id :: id in ids ==> exists u :: u in users && u.id == id
  {
    set u | u in users :: u.id
  }

  /** One more row adds exactly its id. */
  lemma UserIdsAppend(users: seq<User>, u: User)
    ensures UserIds(users + [u]) == UserIds(users) + {u.id}
  {
    assert forall v :: v in users + [u] <==> v in users || v == u;
  }

  /**
   * `User.objects.filter(email=email).first()`. The user table has no default ordering, so
   * `.first()` orders by primary key: the result is the matching user with the least id.
   */
  function FirstUserWithEmail(users: seq<User>, email: string): (r: Option<User>)
    ensures r.None? <==> forall u :: u in users ==> u.email != email
    ensures r.Some? ==> r.value in users && r.value.email == email
    ensures r.Some? ==> forall u :: u in users && u.email == email ==> r.value.id <= u.id
  {
    if |users| == 0 then None
    else
      var rest := FirstUserWithEmail(users[1..], email);
      assert forall u :: u in users <==> u == users[0] || u in users[1..];
      if users[0].email == email && (rest.None? || users[0].id <= rest.value.id) then Some(users[0])
      else rest
  }

  /** `User.objects.filter(id=user_id).first()`. */
  function UserById(users: seq<User>, id: UserId): (r: Option<User>)
    ensures r.None? <==> forall u :: u in users ==> u.id != id
    ensures r.Some? ==> r.value in users && r.value.id == id
  {
    if |users| == 0 then None
    else if users[0].id == id then Some(users[0])
    else
      assert forall u :: u in users[1..] ==> u in users;
      UserById(users[1..], id)
  }

  /** `UserProfile.objects.get(id=profile_id, is_seller=True)`: the user whose profile has this id and is a seller. */
  function SellerWithProfile(users: seq<User>, profileId: ProfileId): (r: Option<User>)
    ensures r.None? <==> forall u :: u in users ==> !IsSellerProfile(u, profileId)
    ensures r.Some? ==> r.value in users && IsSellerProfile(r.value, profileId)
  {
    if |users| == 0 then None
    else if IsSellerProfile(users[0], profileId) then Some(users[0])
    else
      assert forall u :: u in users[1..] ==> u in users;
      SellerWithProfile(users[1..], profileId)
  }

  predicate IsSellerProfile(u: User, profileId: ProfileId) {
    u.profile.Some? && u.profile.value.id == profileId && u.profile.value.isSeller
  }

  /** The users that remain once every user whose id is in `ids` is deleted (profiles go with them). */
  function Without(users: seq<User>, ids: set<UserId>): (r: seq<User>)
    ensures forall u :: u in r <==> u in users && u.id !in ids
    ensures |r| <= |users|
  {
    if |users| == 0 then []
    else if users[0].id in ids then Without(users[1..], ids)
    else [users[0]] + Without(users[1..], ids)
  }

  /** Deletion keeps each surviving row exactly as often as the table had it, and no deleted row. */
  lemma {:induction false} WithoutCounts(users: seq<User>, ids: set<UserId>, u: User)
    ensures multiset(Without(users, ids))[u] == if u.id in ids then 0 else multiset(users)[u]
  {
    if |users| > 0 {
      WithoutCounts(users[1..], ids, u);
      assert users == [users[0]] + users[1..];
    }
  }

  /** Deletion keeps the primary key unique. */
  lemma {:induction false} WithoutKeepsDistinct(users: seq<User>, ids: set<UserId>)
    requires DistinctUserIds(users)
    ensures DistinctUserIds(Without(users, ids))
  {
    if |users| > 0 {
      var rest := users[1..];
      assert DistinctUserIds(rest) by {
        forall i, j | 0 <= i < j < |rest| ensures rest[i].id != rest[j].id {
          assert rest[i] == users[i + 1] && rest[j] == users[j + 1];
        }
      }
      WithoutKeepsDistinct(rest, ids);
      if users[0].id !in ids {
        var tail := Without(rest, ids);
        forall v | v in tail ensures v.id != users[0].id {
          var j :| 0 <= j < |rest| && rest[j] == v;
          assert v == users[j + 1];
        }
        var r := [users[0]] + tail;
        forall i, j | 0 <= i < j < |r| ensures r[i].id != r[j].id {
          assert r[j] == tail[j - 1] && r[j] in tail;
          if i > 0 {
            assert r[i] == tail[i - 1];
          }
        }
      }
    }
  }

  /** Deleting no id leaves the table as it was. */
  lemma {:induction false} WithoutNothing(users: seq<User>)
    ensures Without(users, {}) == users
  {
    if |users| > 0 {
      WithoutNothing(users[1..]);
      assert users == [users[0]] + users[1..];
    }
  }

  /** Deleting one id after a set of ids is deleting the enlarged set. */
  lemma {:induction false} WithoutTwice(users: seq<User>, ids: set<UserId>, id: UserId)
    ensures Without(Without(users, ids), {id}) == Without(users, ids + {id})
  {
    if |users| > 0 {
      WithoutTwice(users[1..], ids, id);
      if users[0].id !in ids {
        assert ([users[0]] + Without(users[1..], ids))[1..] == Without(users[1..], ids);
      }
    }
  }

  /** The user table, updated in place by the verification and cleanup code. */
  class AccountStore {
    var users: seq<User>

    /** The id is the primary key: no two rows share it. */
    predicate Valid()
      reads this
    {
      DistinctUserIds(users)
    }

    constructor (users: seq<User>)
      requires DistinctUserIds(users)
      ensures Valid() && this.users == users
    {
      this.users := users;
    }

    /** `user.delete()`: the user's row (and, by cascade, its profile) disappears. */
    method DeleteUser(id: UserId)
      requires Valid()
      modifies this
      ensures Valid()
      ensures users == Without(old(users), {id})
    {
      WithoutKeepsDistinct(users, {id});
      users := Without(users, {id});
    }
  }
}
