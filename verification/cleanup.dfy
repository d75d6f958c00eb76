/**
 * The `cleanup_unverified` management command: accounts still pending
 * verification whose token expired are selected earliest expiry first, up to
 * a limit, and deleted unless the run is a dry run.
 */
module CleanupUnverified {
  import opened Wrappers
  import opened Accounts

  /** The `--limit` option's default. */
  const DefaultLimit: int := 500

  /** The filter: pending verification, an expiry set, and that expiry strictly before `now`. */
  predicate ExpiredPending(u: User, now: Time) {
    && u.profile.Some? && u.profile.value.pendingEmailVerification
    && u.profile.value.emailTokenExpiresAt.Some? && u.profile.value.emailTokenExpiresAt.value < now
  }

  /** The ordering key of `order_by("email_token_expires_at")` (only ever read on selected rows). */
  function Expiry(u: User): int {
    if u.profile.Some? && u.profile.value.emailTokenExpiresAt.Some? then u.profile.value.emailTokenExpiresAt.value else 0
  }

  /** The filtered rows, in table order. */
  function Candidates(users: seq<User>, now: Time): (r: seq<User>)
    ensures forall u :: u in r <==> u in users && ExpiredPending(u, now)
    ensures multiset(r) <= multiset(users)
  {
    if |users| == 0 then []
    else
      assert users == [users[0]] + users[1..];
      if ExpiredPending(users[0], now) then [users[0]] + Candidates(users[1..], now)
      else Candidates(users[1..], now)
  }

  predicate SortedByExpiry(s: seq<User>) {
    forall i, j :: 0 <= i < j < |s| ==> Expiry(s[i]) <= Expiry(s[j])
  }

  /** Places `u` after every row whose expiry is not later than its own. */
  function Insert(u: User, s: seq<User>): (r: seq<User>)
    requires SortedByExpiry(s)
    ensures SortedByExpiry(r)
    ensures forall v :: v in r <==> v == u || v in s
  {
    if |s| == 0 || Expiry(u) < Expiry(s[0]) then
      var r := [u] + s;
      assert SortedByExpiry(r) by {
        forall i, j | 0 <= i < j < |r| ensures Expiry(r[i]) <= Expiry(r[j]) {
          assert r[j] == s[j - 1];
          if i > 0 {
            assert r[i] == s[i - 1];
          }
        }
      }
      r
    else
      var rest := Insert(u, s[1..]);
      var r := [s[0]] + rest;
      assert SortedByExpiry(r) by {
        forall i, j | 0 <= i < j < |r| ensures Expiry(r[i]) <= Expiry(r[j]) {
          assert r[j] == rest[j - 1] && rest[j - 1] in rest;
          if i > 0 {
            assert r[i] == rest[i - 1];
          }
        }
      }
      r
  }

  /** Inserting adds exactly the one row. */
  lemma {:induction false} InsertPermutes(u: User, s: seq<User>)
    requires SortedByExpiry(s)
    ensures multiset(Insert(u, s)) == multiset(s) + multiset{u}
  {
    if |s| > 0 && Expiry(u) >= Expiry(s[0]) {
      InsertPermutes(u, s[1..]);
      assert s == [s[0]] + s[1..];
    }
  }

  /** The rows ordered by expiry, earliest first; rows with equal expiry keep their table order. */
  function OrderByExpiry(s: seq<User>): (r: seq<User>)
    ensures SortedByExpiry(r)
    ensures multiset(r) == multiset(s)
  {
    if |s| == 0 then []
    else
      var front := s[..|s| - 1];
      var last := s[|s| - 1];
      var init := OrderByExpiry(front);
      assert s == front + [last];
      OrderStep(front, last, init);
      Insert(last, init)
  }

  /** Inserting the next row into the ordered prefix orders the prefix extended by that row. */
  lemma OrderStep(front: seq<User>, last: User, init: seq<User>)
    requires SortedByExpiry(init) && multiset(init) == multiset(front)
    ensures multiset(Insert(last, init)) == multiset(front + [last])
  {
    InsertPermutes(last, init);
  }

  function Min(a: int, b: int): int { if a < b then a else b }

  /** The command's queryset: filtered, ordered by expiry, then sliced to `[:limit]`. */
  function Selection(users: seq<User>, now: Time, limit: nat): (r: seq<User>)
    ensures |r| == Min(limit, |Candidates(users, now)|)
    ensures SortedByExpiry(r)
    ensures forall u :: u in r ==> u in users && ExpiredPending(u, now)
    ensures multiset(r) <= multiset(Candidates(users, now))
  {
    var candidates := Candidates(users, now);
    var sorted := OrderByExpiry(candidates);
    var r := sorted[..Min(limit, |sorted|)];
    PrefixWithin(sorted, Min(limit, |sorted|));
    assert forall u :: u in r ==> u in multiset(candidates);
    r
  }

  /** A prefix holds no row more often than the whole sequence. */
  lemma PrefixWithin(s: seq<User>, n: nat)
    requires n <= |s|
    ensures multiset(s[..n]) <= multiset(s)
    ensures forall u :: u in s[..n] ==> u in s
  {
    assert s == s[..n] + s[n..];
  }

  /** A candidate left out of a truncated selection expires no earlier than any selected row. */
  lemma {:induction false} SelectionTakesEarliest(users: seq<User>, now: Time, limit: nat, u: User, v: User)
    requires u in Selection(users, now, limit)
    requires v in users && ExpiredPending(v, now) && v !in Selection(users, now, limit)
    ensures Expiry(u) <= Expiry(v)
  {
    var sorted := OrderByExpiry(Candidates(users, now));
    assert v in multiset(Candidates(users, now));
    assert v in sorted;
    var j :| 0 <= j < |sorted| && sorted[j] == v;
    var sel := Selection(users, now, limit);
    assert sel == sorted[..limit];
    var i :| 0 <= i < |sel| && sel[i] == u;
    assert sorted[i] == u;
  }

  datatype Outcome = NegativeLimit | NothingFound | DryRun(count: nat) | Deleted(count: nat)

  /**
   * `Command.handle`. A negative limit is refused (querysets reject negative slicing); an empty
   * selection or a dry run deletes nothing; otherwise each selected user is deleted in order.
   */
  method Handle(store: AccountStore, now: Time, limit: int := DefaultLimit, dryRun: bool := false) returns (outcome: Outcome)
    requires store.Valid()
    modifies store
    ensures store.Valid()
    ensures limit < 0 ==> outcome == NegativeLimit && store.users == old(store.users)
    ensures limit >= 0 && |Selection(old(store.users), now, limit)| == 0 ==>
              outcome == NothingFound && store.users == old(store.users)
    ensures limit >= 0 && |Selection(old(store.users), now, limit)| > 0 && dryRun ==>
              outcome == DryRun(|Selection(old(store.users), now, limit)|) && store.users == old(store.users)
    ensures limit >= 0 && |Selection(old(store.users), now, limit)| > 0 && !dryRun ==>
              && outcome == Deleted(|Selection(old(store.users), now, limit)|)
              && store.users == Without(old(store.users), UserIds(Selection(old(store.users), now, limit)))
    ensures forall u :: u in old(store.users) && !ExpiredPending(u, now) ==> u in store.users
  {
    if limit < 0 {
      return NegativeLimit;
    }
    var qs := Selection(store.users, now, limit);
    var count := |qs|;
    if count == 0 {
      return NothingFound;
    }
    if dryRun {
      return DryRun(count);
    }
    ghost var before := store.users;
    var deleted := DeleteAll(store, qs);
    forall u | u in before && !ExpiredPending(u, now) ensures u in store.users {
      CleanupSparesOthers(before, now, limit, u);
    }
    return Deleted(deleted);
  }

  /** The deletion loop: each selected row's user is deleted and counted. */
  method DeleteAll(store: AccountStore, qs: seq<User>) returns (deleted: nat)
    requires store.Valid()
    modifies store
    ensures store.Valid()
    ensures deleted == |qs|
    ensures store.users == Without(old(store.users), UserIds(qs))
  {
    deleted := 0;
    WithoutNothing(store.users);
    assert UserIds(qs[..0]) == {};
    for k := 0 to |qs|
      invariant deleted == k
      invariant store.Valid()
      invariant store.users == Without(old(store.users), UserIds(qs[..k]))
    {
      DeleteStep(old(store.users), qs, k);
      store.DeleteUser(qs[k].id);
      deleted := deleted + 1;
    }
    assert qs[..|qs|] == qs;
  }

  /** Deleting the next selected user extends the deleted prefix by one row. */
  lemma DeleteStep(users: seq<User>, qs: seq<User>, k: nat)
    requires k < |qs|
    ensures Without(Without(users, UserIds(qs[..k])), {qs[k].id}) == Without(users, UserIds(qs[..k + 1]))
  {
    var done := qs[..k];
    var ids := UserIds(done);
    assert qs[..k + 1] == done + [qs[k]];
    UserIdsAppend(done, qs[k]);
    assert UserIds(qs[..k + 1]) == ids + {qs[k].id};
    WithoutTwice(users, ids, qs[k].id);
  }

  /** Only expired pending accounts lose their row: every other user survives a cleanup run. */
  lemma {:induction false} CleanupSparesOthers(users: seq<User>, now: Time, limit: nat, u: User)
    requires u in users && !ExpiredPending(u, now)
    requires DistinctUserIds(users)
    ensures u in Without(users, UserIds(Selection(users, now, limit)))
  {
    var sel := Selection(users, now, limit);
    var i :| 0 <= i < |users| && users[i] == u;
    forall v | v in sel ensures v.id != u.id {
      var j :| 0 <= j < |users| && users[j] == v;
      assert v != u;
    }
  }
}
