/**
 * The `pre_delete` receiver on `User` (`signals.py`): before a user row goes,
 * the ratings naming that user as seller or as reviewer account are
 * tombstoned in place. Unlike `review_utils.handle_user_deletion` it receives
 * the user itself and writes no seller e-mail snapshot.
 */
module Signals {
  import opened Wrappers
  import opened Accounts
  import opened Ratings

  /** `handle_user_deletion(sender, instance)`: the two bulk updates, the first only for a seller. */
  method HandleUserPreDelete(store: RatingStore, instance: User)
    requires store.Valid()
    modifies store
    ensures store.Valid()
    ensures store.ratings == Tombstone(old(store.ratings), instance, false)
    ensures store.nextId == old(store.nextId)
  {
    if IsSeller(instance) {
      store.ratings := SellerTombstoned(store.ratings, instance.profile.value.id, None);
    }
    store.ratings := ReviewerTombstoned(store.ratings, instance);
  }

  /** The signal and `review_utils` leave identical rows except for the seller e-mail snapshot. */
  lemma SignalSkipsSnapshot(ratings: seq<SellerRating>, u: User)
    ensures var bySignal := Tombstone(ratings, u, false);
            var byUtils := Tombstone(ratings, u, true);
            forall k :: 0 <= k < |ratings| ==>
              bySignal[k] == byUtils[k].(originalSellerEmail := ratings[k].originalSellerEmail)
  {
  }

  /** A row the signal rewrites as the seller's keeps whatever e-mail snapshot it had. */
  lemma SignalKeepsSnapshot(ratings: seq<SellerRating>, u: User)
    ensures forall k :: 0 <= k < |ratings| ==>
              Tombstone(ratings, u, false)[k].originalSellerEmail == ratings[k].originalSellerEmail
  {
  }
}
