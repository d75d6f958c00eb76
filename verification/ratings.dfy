/**
 * Seller ratings (`utils/review_utils.py`): one row per (seller, reviewer e-mail)
 * pair, inserted or updated in place by `submit_rating_for_seller`; tombstoned
 * rather than removed when an account goes away; counted by `get_seller_stats`.
 */
module Ratings {
  import opened Wrappers
  import opened Text
  import opened Accounts

  /** A `SellerRating` row, with the fields the modelled code reads or writes. */
  datatype SellerRating = SellerRating(
    id: nat,
    seller: Option<ProfileId>,
    reviewerEmail: string,
    reviewerName: string,
    reviewerUser: Option<UserId>,
    score: int,
    reviewText: string,
    originalReviewerId: Option<UserId>,
    sellerWasDeleted: bool,
    originalSellerEmail: Option<string>,
    reviewerAccountDeleted: bool)

  /** The row belongs to this (seller, reviewer e-mail) pair. */
  predicate ForPair(r: SellerRating, seller: ProfileId, email: string) {
    r.seller == Some(seller) && r.reviewerEmail == email
  }

  /** `SellerRating.objects.filter(seller=..., reviewer_email=...).first()`, as a position in table order. */
  function FindRating(ratings: seq<SellerRating>, seller: ProfileId, email: string): (k: Option<nat>)
    ensures k.None? <==> forall j :: 0 <= j < |ratings| ==> !ForPair(ratings[j], seller, email)
    ensures k.Some? ==> k.value < |ratings| && ForPair(ratings[k.value], seller, email)
    ensures k.Some? ==> forall j :: 0 <= j < k.value ==> !ForPair(ratings[j], seller, email)
  {
    if |ratings| == 0 then None
    else if ForPair(ratings[0], seller, email) then Some(0)
    else
      var rest := FindRating(ratings[1..], seller, email);
      if rest.Some? then Some(rest.value + 1) else None
  }

  /** The `if existing_review:` branch: score and text always, name and user only when given. */
  function Revised(r: SellerRating, score: int, text: string, name: string, reviewer: Option<User>): SellerRating {
    var r1 := r.(score := score, reviewText := text);
    var r2 := if name != "" then r1.(reviewerName := name) else r1;
    if reviewer.Some? then r2.(reviewerUser := Some(reviewer.value.id)) else r2
  }

  /**
   * The `else` branch: a new row whose name defaults to the part of the e-mail before '@'. The
   * deletion flags and the seller snapshot start cleared.
   */
  function NewRating(id: nat, seller: ProfileId, email: string, name: string, reviewer: Option<User>, score: int, text: string): SellerRating {
    var reviewerId := if reviewer.Some? then Some(reviewer.value.id) else None;
    SellerRating(id, Some(seller), email, if name != "" then name else BeforeFirst(email, '@'),
                 reviewerId, score, text, reviewerId, false, None, false)
  }

  /** The table after a valid submission: the pair's first row revised, or a new row appended. */
  function Upsert(ratings: seq<SellerRating>, seller: ProfileId, email: string, reviewer: Option<User>,
                  score: int, text: string, name: string, freshId: nat): (r: seq<SellerRating>)
    ensures FindRating(ratings, seller, email).Some? ==> |r| == |ratings|
    ensures FindRating(ratings, seller, email).None? ==> |r| == |ratings| + 1 && r[..|ratings|] == ratings
    ensures forall j :: 0 <= j < |ratings| && !ForPair(ratings[j], seller, email) ==> r[j] == ratings[j]
  {
    match FindRating(ratings, seller, email)
    case Some(k) => ratings[k := Revised(ratings[k], score, text, name, reviewer)]
    case None => ratings + [NewRating(freshId, seller, email, name, reviewer, score, text)]
  }

  /** The number of rows for one pair. */
  function PairCount(ratings: seq<SellerRating>, seller: ProfileId, email: string): nat {
    if |ratings| == 0 then 0
    else (if ForPair(ratings[0], seller, email) then 1 else 0) + PairCount(ratings[1..], seller, email)
  }

  /** No two rows attached to a seller share that seller and the reviewer e-mail. */
  predicate AtMostOnePerPair(ratings: seq<SellerRating>) {
    forall i, j :: 0 <= i < j < |ratings| && ratings[i].seller.Some? ==>
      !ForPair(ratings[j], ratings[i].seller.value, ratings[i].reviewerEmail)
  }

  lemma {:induction false} PairCountNone(ratings: seq<SellerRating>, seller: ProfileId, email: string)
    requires forall j :: 0 <= j < |ratings| ==> !ForPair(ratings[j], seller, email)
    ensures PairCount(ratings, seller, email) == 0
  {
    if |ratings| > 0 {
      PairCountNone(ratings[1..], seller, email);
    }
  }

  lemma {:induction false} PairCountAppend(ratings: seq<SellerRating>, x: SellerRating, seller: ProfileId, email: string)
    ensures PairCount(ratings + [x], seller, email) == PairCount(ratings, seller, email) + (if ForPair(x, seller, email) then 1 else 0)
  {
    if |ratings| > 0 {
      assert (ratings + [x])[1..] == ratings[1..] + [x];
      PairCountAppend(ratings[1..], x, seller, email);
    }
  }

  lemma {:induction false} PairCountUpdate(ratings: seq<SellerRating>, k: nat, x: SellerRating, seller: ProfileId, email: string)
    requires k < |ratings| && ForPair(ratings[k], seller, email) == ForPair(x, seller, email)
    ensures PairCount(ratings[k := x], seller, email) == PairCount(ratings, seller, email)
  {
    if k > 0 {
      assert ratings[k := x][1..] == ratings[1..][k - 1 := x];
      PairCountUpdate(ratings[1..], k - 1, x, seller, email);
    }
  }

  /** With one row per pair, a pair has at most one row. */
  lemma {:induction false} PairCountAtMostOne(ratings: seq<SellerRating>, seller: ProfileId, email: string)
    requires AtMostOnePerPair(ratings)
    ensures PairCount(ratings, seller, email) <= 1
  {
    if |ratings| > 0 {
      var rest := ratings[1..];
      if ForPair(ratings[0], seller, email) {
        forall j | 0 <= j < |rest| ensures !ForPair(rest[j], seller, email) {
          assert rest[j] == ratings[j + 1];
        }
        PairCountNone(rest, seller, email);
      } else {
        assert AtMostOnePerPair(rest) by {
          forall i, j | 0 <= i < j < |rest| && rest[i].seller.Some?
            ensures !ForPair(rest[j], rest[i].seller.value, rest[i].reviewerEmail)
          {
            assert rest[i] == ratings[i + 1] && rest[j] == ratings[j + 1];
          }
        }
        PairCountAtMostOne(rest, seller, email);
      }
    }
  }

  /**
   * An update leaves the pair's row count unchanged, a creation adds exactly one row; either way
   * the pair ends up with exactly one row when the table had at most one per pair.
   */
  lemma {:induction false} UpsertPairCount(ratings: seq<SellerRating>, seller: ProfileId, email: string, reviewer: Option<User>,
                                           score: int, text: string, name: string, freshId: nat)
    ensures var after := Upsert(ratings, seller, email, reviewer, score, text, name, freshId);
            FindRating(ratings, seller, email).Some? ==> PairCount(after, seller, email) == PairCount(ratings, seller, email)
    ensures var after := Upsert(ratings, seller, email, reviewer, score, text, name, freshId);
            FindRating(ratings, seller, email).None? ==> PairCount(after, seller, email) == PairCount(ratings, seller, email) + 1 == 1
    ensures AtMostOnePerPair(ratings) ==> PairCount(Upsert(ratings, seller, email, reviewer, score, text, name, freshId), seller, email) == 1
  {
    var after := Upsert(ratings, seller, email, reviewer, score, text, name, freshId);
    match FindRating(ratings, seller, email)
    case Some(k) =>
      PairCountUpdate(ratings, k, Revised(ratings[k], score, text, name, reviewer), seller, email);
      if AtMostOnePerPair(ratings) {
        PairCountAtMostOne(ratings, seller, email);
        PairCountPositive(ratings, k, seller, email);
      }
    case None =>
      PairCountAppend(ratings, NewRating(freshId, seller, email, name, reviewer, score, text), seller, email);
      PairCountNone(ratings, seller, email);
  }

  lemma {:induction false} PairCountPositive(ratings: seq<SellerRating>, k: nat, seller: ProfileId, email: string)
    requires k < |ratings| && ForPair(ratings[k], seller, email)
    ensures PairCount(ratings, seller, email) >= 1
  {
    if k > 0 {
      PairCountPositive(ratings[1..], k - 1, seller, email);
    }
  }

  /** A submission keeps the table at one row per pair. */
  lemma {:induction false} UpsertKeepsOnePerPair(ratings: seq<SellerRating>, seller: ProfileId, email: string, reviewer: Option<User>,
                                                 score: int, text: string, name: string, freshId: nat)
    requires AtMostOnePerPair(ratings)
    ensures AtMostOnePerPair(Upsert(ratings, seller, email, reviewer, score, text, name, freshId))
  {
    var after := Upsert(ratings, seller, email, reviewer, score, text, name, freshId);
    match FindRating(ratings, seller, email)
    case Some(k) =>
      forall i, j | 0 <= i < j < |after| && after[i].seller.Some?
        ensures !ForPair(after[j], after[i].seller.value, after[i].reviewerEmail)
      {
        assert after[i].seller == ratings[i].seller && after[i].reviewerEmail == ratings[i].reviewerEmail;
        assert after[j].seller == ratings[j].seller && after[j].reviewerEmail == ratings[j].reviewerEmail;
      }
    case None =>
      forall i, j | 0 <= i < j < |after| && after[i].seller.Some?
        ensures !ForPair(after[j], after[i].seller.value, after[i].reviewerEmail)
      {
        if j == |ratings| {
          assert after[i] == ratings[i];
        } else {
          assert after[i] == ratings[i] && after[j] == ratings[j];
        }
      }
  }

  /**
   * The pair's row holds the submission: its score and text, the given name or else the one it
   * had (a new row: the e-mail's local part), and the matching account when there is one; a new
   * row also records that account, or none, as its original reviewer. An update keeps the row in
   * place, and with it the id, the pair, the original reviewer and the deletion flags and snapshot.
   */
  lemma {:induction false} UpsertStoresSubmission(ratings: seq<SellerRating>, seller: ProfileId, email: string, reviewer: Option<User>,
                                                  score: int, text: string, name: string, freshId: nat)
    ensures var after := Upsert(ratings, seller, email, reviewer, score, text, name, freshId);
            var k := FindRating(after, seller, email);
            && k.Some?
            && after[k.value].score == score && after[k.value].reviewText == text
            && (name != "" ==> after[k.value].reviewerName == name)
            && (reviewer.Some? ==> after[k.value].reviewerUser == Some(reviewer.value.id))
            && (FindRating(ratings, seller, email).None? ==>
                  && after[k.value].id == freshId
                  && (name == "" ==> after[k.value].reviewerName == BeforeFirst(email, '@'))
                  && (reviewer.None? ==> after[k.value].reviewerUser.None? && after[k.value].originalReviewerId.None?)
                  && (reviewer.Some? ==> after[k.value].originalReviewerId == Some(reviewer.value.id)))
    ensures var after := Upsert(ratings, seller, email, reviewer, score, text, name, freshId);
            var found := FindRating(ratings, seller, email);
            found.Some? ==>
              var before := ratings[found.value];
              var row := after[found.value];
              && FindRating(after, seller, email) == found
              && (name == "" ==> row.reviewerName == before.reviewerName)
              && (reviewer.None? ==> row.reviewerUser == before.reviewerUser)
              && row.id == before.id && row.seller == before.seller && row.reviewerEmail == before.reviewerEmail
              && row.originalReviewerId == before.originalReviewerId
              && row.sellerWasDeleted == before.sellerWasDeleted && row.originalSellerEmail == before.originalSellerEmail
              && row.reviewerAccountDeleted == before.reviewerAccountDeleted
  {
    var after := Upsert(ratings, seller, email, reviewer, score, text, name, freshId);
    match FindRating(ratings, seller, email)
    case Some(k) =>
      assert FindRating(after, seller, email) == Some(k) by {
        FindRatingAgain(ratings, after, k, seller, email);
      }
    case None =>
      assert FindRating(after, seller, email) == Some(|ratings|) by {
        FindRatingAgain(ratings, after, |ratings|, seller, email);
      }
  }

  /** A table that agrees with `ratings` on the pair's rows before `k` and has a pair row at `k` finds it at `k`. */
  lemma FindRatingAgain(ratings: seq<SellerRating>, after: seq<SellerRating>, k: nat, seller: ProfileId, email: string)
    requires k < |after| && ForPair(after[k], seller, email)
    requires forall j :: 0 <= j < k ==> j < |ratings| && !ForPair(ratings[j], seller, email) && after[j] == ratings[j]
    ensures FindRating(after, seller, email) == Some(k)
  {
    assert FindRating(after, seller, email).Some?;
  }

  datatype SubmitResult = SellerNotFound | InvalidEmail | Submitted(rating: SellerRating, created: bool)

  /** The reviewer e-mail check: non-empty and containing '@'. */
  predicate ValidReviewerEmail(email: string) {
    |email| > 0 && Contains(email, '@')
  }

  /** `user.profile.is_seller`, false for a user without a profile. */
  predicate IsSeller(u: User) {
    u.profile.Some? && u.profile.value.isSeller
  }

  /** The `Deleted User (<email>)` label given to a deleted reviewer's ratings. */
  function DeletedUserName(email: string): string {
    "Deleted User (" + email + ")"
  }

  /** The first bulk update: the seller's ratings lose the seller and record that it was deleted. */
  function SellerTombstoned(ratings: seq<SellerRating>, profileId: ProfileId, snapshot: Option<string>): (r: seq<SellerRating>)
    ensures |r| == |ratings|
  {
    seq(|ratings|, k requires 0 <= k < |ratings| =>
      var x := ratings[k];
      if x.seller == Some(profileId) then
        x.(seller := None, sellerWasDeleted := true,
           originalSellerEmail := if snapshot.Some? then snapshot else x.originalSellerEmail)
      else x)
  }

  /** The second bulk update: the reviewer's ratings lose the account and take the deleted-user label. */
  function ReviewerTombstoned(ratings: seq<SellerRating>, u: User): (r: seq<SellerRating>)
    ensures |r| == |ratings|
  {
    seq(|ratings|, k requires 0 <= k < |ratings| =>
      var x := ratings[k];
      if x.reviewerUser == Some(u.id) then
        x.(reviewerUser := None, reviewerAccountDeleted := true, reviewerName := DeletedUserName(u.email))
      else x)
  }

  /** The row rates `u`'s seller profile. */
  predicate SoldBy(x: SellerRating, u: User) {
    IsSeller(u) && x.seller == Some(u.profile.value.id)
  }

  /** The row was written by `u`'s account. */
  predicate WrittenBy(x: SellerRating, u: User) {
    x.reviewerUser == Some(u.id)
  }

  /** The row refers to `u` as its seller or as its reviewer account. */
  predicate RefersTo(x: SellerRating, u: User) {
    SoldBy(x, u) || WrittenBy(x, u)
  }

  /**
   * Both updates for the deleted user `u`; `snapshotEmail` says whether the seller's e-mail is
   * copied into the rows (`review_utils` does, the `pre_delete` signal does not). A row the user
   * sold under loses its seller and is flagged; a row the user wrote loses its account, is flagged
   * and is relabelled; every other field, the original reviewer id included, is kept.
   */
  function Tombstone(ratings: seq<SellerRating>, u: User, snapshotEmail: bool): (r: seq<SellerRating>)
    ensures |r| == |ratings|
    ensures forall k :: 0 <= k < |r| ==> !RefersTo(r[k], u)
    ensures forall k :: 0 <= k < |r| && !RefersTo(ratings[k], u) ==> r[k] == ratings[k]
    ensures forall k :: 0 <= k < |r| ==>
              && r[k].id == ratings[k].id && r[k].reviewerEmail == ratings[k].reviewerEmail
              && r[k].score == ratings[k].score && r[k].reviewText == ratings[k].reviewText
              && r[k].originalReviewerId == ratings[k].originalReviewerId
    ensures forall k :: 0 <= k < |r| ==>
              r[k].seller == (if SoldBy(ratings[k], u) then None else ratings[k].seller)
    ensures forall k :: 0 <= k < |r| ==>
              r[k].reviewerUser == (if WrittenBy(ratings[k], u) then None else ratings[k].reviewerUser)
    ensures forall k :: 0 <= k < |r| && SoldBy(ratings[k], u) ==>
              r[k].sellerWasDeleted && r[k].originalSellerEmail == (if snapshotEmail then Some(u.email) else ratings[k].originalSellerEmail)
    ensures forall k :: 0 <= k < |r| && !SoldBy(ratings[k], u) ==>
              r[k].sellerWasDeleted == ratings[k].sellerWasDeleted && r[k].originalSellerEmail == ratings[k].originalSellerEmail
    ensures forall k :: 0 <= k < |r| && WrittenBy(ratings[k], u) ==>
              r[k].reviewerAccountDeleted && r[k].reviewerName == DeletedUserName(u.email)
    ensures forall k :: 0 <= k < |r| && !WrittenBy(ratings[k], u) ==>
              r[k].reviewerAccountDeleted == ratings[k].reviewerAccountDeleted && r[k].reviewerName == ratings[k].reviewerName
  {
    var afterSeller := if IsSeller(u) then SellerTombstoned(ratings, u.profile.value.id, if snapshotEmail then Some(u.email) else None) else ratings;
    ReviewerTombstoned(afterSeller, u)
  }

  /** Tombstoning twice is tombstoning once. */
  lemma TombstoneIdempotent(ratings: seq<SellerRating>, u: User, snapshotEmail: bool)
    ensures Tombstone(Tombstone(ratings, u, snapshotEmail), u, snapshotEmail) == Tombstone(ratings, u, snapshotEmail)
  {
    var once := Tombstone(ratings, u, snapshotEmail);
    var twice := Tombstone(once, u, snapshotEmail);
    assert forall k :: 0 <= k < |twice| ==> twice[k] == once[k];
  }

  /** The rows of `ratings_received`: those whose seller is this profile. */
  function RatingsOf(ratings: seq<SellerRating>, profileId: ProfileId): (r: seq<SellerRating>)
    ensures forall x :: x in r <==> x in ratings && x.seller == Some(profileId)
  {
    if |ratings| == 0 then []
    else if ratings[0].seller == Some(profileId) then [ratings[0]] + RatingsOf(ratings[1..], profileId)
    else RatingsOf(ratings[1..], profileId)
  }

  /** Each of the seller's rows is counted exactly as often as the table has it, so `|RatingsOf|` is `total_ratings`. */
  lemma {:induction false} RatingsOfCounts(ratings: seq<SellerRating>, profileId: ProfileId, x: SellerRating)
    ensures multiset(RatingsOf(ratings, profileId))[x] == if x.seller == Some(profileId) then multiset(ratings)[x] else 0
  {
    if |ratings| > 0 {
      RatingsOfCounts(ratings[1..], profileId, x);
      assert ratings == [ratings[0]] + ratings[1..];
    }
  }

  function CountVerified(rs: seq<SellerRating>): nat {
    if |rs| == 0 then 0 else (if rs[0].reviewerUser.Some? then 1 else 0) + CountVerified(rs[1..])
  }

  function CountAnonymous(rs: seq<SellerRating>): nat {
    if |rs| == 0 then 0 else (if rs[0].reviewerUser.None? then 1 else 0) + CountAnonymous(rs[1..])
  }

  function CountScore(rs: seq<SellerRating>, score: int): nat {
    if |rs| == 0 then 0 else (if rs[0].score == score then 1 else 0) + CountScore(rs[1..], score)
  }

  /** Every rating is either verified or anonymous. */
  lemma {:induction false} VerifiedPlusAnonymous(rs: seq<SellerRating>)
    ensures CountVerified(rs) + CountAnonymous(rs) == |rs|
  {
    if |rs| > 0 {
      VerifiedPlusAnonymous(rs[1..]);
    }
  }

  /** The sum of the distribution's five counts. */
  function DistributionSum(rs: seq<SellerRating>): nat {
    CountScore(rs, 1) + CountScore(rs, 2) + CountScore(rs, 3) + CountScore(rs, 4) + CountScore(rs, 5)
  }

  /**
   * The distribution accounts for every rating exactly when every score lies in 1..5; the score is
   * stored unchecked, and each rating outside that range is missing from the distribution.
   */
  lemma {:induction false} DistributionCoversRange(rs: seq<SellerRating>)
    ensures DistributionSum(rs) <= |rs|
    ensures DistributionSum(rs) == |rs| <==> forall x :: x in rs ==> 1 <= x.score <= 5
  {
    if |rs| > 0 {
      DistributionCoversRange(rs[1..]);
      assert forall x :: x in rs <==> x == rs[0] || x in rs[1..];
    }
  }

  datatype SellerStats = SellerStats(total: nat, verified: nat, anonymous: nat, distribution: Option<map<int, nat>>)

  /** The rating table, updated in place by submissions and account deletions. */
  class RatingStore {
    var ratings: seq<SellerRating>
    var nextId: nat

    /** Every row's id has already been handed out. */
    predicate Valid()
      reads this
    {
      forall x :: x in ratings ==> x.id < nextId
    }

    constructor ()
      ensures Valid() && ratings == []
    {
      ratings := [];
      nextId := 0;
    }

    /**
     * `submit_rating_for_seller`: the seller is looked up first, then the e-mail is checked, then
     * the pair's rating is updated or created. `users` is the user table.
     */
    method SubmitRating(users: seq<User>, sellerProfileId: ProfileId, reviewerEmail: string, score: int,
                        reviewText: string := "", reviewerName: string := "") returns (r: SubmitResult)
      requires Valid()
      modifies this
      ensures Valid()
      ensures SellerWithProfile(users, sellerProfileId).None? ==> r == SellerNotFound
      ensures SellerWithProfile(users, sellerProfileId).Some? && !ValidReviewerEmail(reviewerEmail) ==> r == InvalidEmail
      ensures !r.Submitted? ==> ratings == old(ratings) && nextId == old(nextId)
      ensures SellerWithProfile(users, sellerProfileId).Some? && ValidReviewerEmail(reviewerEmail) ==>
                && r.Submitted?
                && r.created == FindRating(old(ratings), sellerProfileId, reviewerEmail).None?
                && ratings == Upsert(old(ratings), sellerProfileId, reviewerEmail, FirstUserWithEmail(users, reviewerEmail),
                                     score, reviewText, reviewerName, old(nextId))
                && r.rating in ratings && ForPair(r.rating, sellerProfileId, reviewerEmail)
    {
      if SellerWithProfile(users, sellerProfileId).None? {
        return SellerNotFound;
      }
      if |reviewerEmail| == 0 || !Contains(reviewerEmail, '@') {
        return InvalidEmail;
      }
      var reviewer := FirstUserWithEmail(users, reviewerEmail);
      var existing := FindRating(ratings, sellerProfileId, reviewerEmail);
      if existing.Some? {
        var k := existing.value;
        var revised := Revised(ratings[k], score, reviewText, reviewerName, reviewer);
        assert ForPair(revised, sellerProfileId, reviewerEmail);
        ratings := ratings[k := revised];
        assert ratings[k] == revised;
        return Submitted(revised, false);
      } else {
        var review := NewRating(nextId, sellerProfileId, reviewerEmail, reviewerName, reviewer, score, reviewText);
        ratings := ratings + [review];
        nextId := nextId + 1;
        return Submitted(review, true);
      }
    }

    /**
     * `handle_user_deletion` in `review_utils`: an unknown id answers `false` and changes nothing;
     * otherwise the user's ratings as seller (with the e-mail snapshot) and as reviewer are tombstoned.
     */
    method HandleUserDeletion(users: seq<User>, userId: UserId) returns (handled: bool)
      requires Valid()
      modifies this
      ensures Valid()
      ensures handled <==> UserById(users, userId).Some?
      ensures !handled ==> ratings == old(ratings)
      ensures handled ==> ratings == Tombstone(old(ratings), UserById(users, userId).value, true)
      ensures nextId == old(nextId)
    {
      var user := UserById(users, userId);
      if user.None? {
        return false;
      }
      var u := user.value;
      if IsSeller(u) {
        ratings := SellerTombstoned(ratings, u.profile.value.id, Some(u.email));
      }
      ratings := ReviewerTombstoned(ratings, u);
      return true;
    }

    /** `get_seller_stats` without the average: counts, and the distribution over scores 1..5. */
    method SellerStatsOf(profile: Profile) returns (stats: SellerStats)
      ensures !profile.isSeller ==> stats == SellerStats(0, 0, 0, None)
      ensures profile.isSeller ==>
                var rs := RatingsOf(ratings, profile.id);
                && stats.total == |rs|
                && stats.verified == CountVerified(rs)
                && stats.anonymous == CountAnonymous(rs)
                && stats.verified + stats.anonymous == stats.total
                && stats.distribution.Some?
                && stats.distribution.value.Keys == {1, 2, 3, 4, 5}
                && forall i :: i in stats.distribution.value ==> stats.distribution.value[i] == CountScore(rs, i)
    {
      if !profile.isSeller {
        return SellerStats(0, 0, 0, None);
      }
      var rs := RatingsOf(ratings, profile.id);
      VerifiedPlusAnonymous(rs);
      var distribution: map<int, nat> := map[];
      for i := 1 to 6
        invariant forall j :: j in distribution <==> 1 <= j < i
        invariant forall j :: j in distribution ==> distribution[j] == CountScore(rs, j)
      {
        distribution := distribution[i := CountScore(rs, i)];
      }
      assert distribution.Keys == {1, 2, 3, 4, 5} by {
        forall j ensures j in distribution.Keys <==> j in {1, 2, 3, 4, 5} {
        }
      }
      return SellerStats(|rs|, CountVerified(rs), CountAnonymous(rs), Some(distribution));
    }
  }
}
