# rum-marketplace: verified model of the account, messaging, listing and rating logic

This project models the business logic of a Django marketplace for a university community.
It covers four parts:

- **E-mail verification.** A signup is normalised and given a 60-minute window. A verification link is classified as invalid, expired or usable. Only the POST half of the two-step link activates an account. Re-sending the e-mail overwrites the token. A management command purges accounts whose link expired while they were still pending.
- **Messaging.** Viewing a conversation marks the viewer's unread messages read. The polling endpoint stamps what it returns. Unread counts are computed globally and per conversation. The listings mentioned in a conversation are de-duplicated by id.
- **Listing creation.** `add_product` computes the discount and accepts one to five images, which are numbered from 0.
- **Seller ratings.** A rating is upserted per (seller, reviewer e-mail) pair. Ratings are tombstoned when either party's account is deleted, and counted for the seller's statistics.

Database tables are sequences of records, and time is an integer number of microseconds passed in as `now`. Operations that update rows in place are methods on classes holding those tables. `AccountStore`, `Inbox`, `Catalog` and `RatingStore` are proved against specification functions, and the lemmas beside those functions state what the code promises.

Modules, one per file:

| file | module | models |
|---|---|---|
| text.dfy | `Wrappers`, `Text` | `Option`; Python's `strip`, ASCII `lower`, `endswith`, `split('@')[0]` and `int()` on decimal strings |
| accounts.dfy | `Accounts` | user and profile rows, the lookups the views make, user deletion |
| pending_signup.dfy | `PendingSignups` | `PendingSignup.from_raw`, `is_expired` |
| signup_form.dfy | `SignupForm` | `PreSignupForm`: field limits, `clean_email`, `clean_username`, `clean` |
| verification.dfy | `EmailVerification` | `VerifyEmailView`, `_send_verification_email` |
| cleanup.dfy | `CleanupUnverified` | the `cleanup_unverified` management command |
| lifecycle.dfy | `ExpiryBoundaries` | how the three expiry comparisons relate at the boundary instant |
| messaging.dfy | `Messaging` | read marking and message creation in `conversation_view`, `get_new_messages`, unread counts |
| mentions.dfy | `Mentions` | the mentioned-listing de-duplication of `messages_view` |
| catalog.dfy | `Catalog` | `add_product`, the `Product` decimal columns |
| ratings.dfy | `Ratings` | `submit_rating_for_seller`, `handle_user_deletion`, `get_seller_stats` |
| signals.dfy | `Signals` | the `pre_delete` receiver that tombstones ratings |

## Model

| member | source | states |
|---|---|---|
| Text.Strip | store_app/models.py:309-312 | the result is no longer than the input and has no Python whitespace at either end |
| Text.StripPadded | store_app/models.py:309-312 | `strip()` removes exactly the surrounding whitespace: any string with no whitespace at its ends, padded on either side by whitespace, strips back to itself (so the result above is determined by the input) |
| Text.StripIdempotent | store_app/forms.py:19 | stripping twice is stripping once |
| Text.LowerIdempotent | store_app/forms.py:19 | lower-casing twice is lower-casing once |
| Text.LowerStripCommute | store_app/models.py:312 | `strip().lower()` equals `lower().strip()` |
| Text.BeforeFirst | store_app/utils/review_utils.py:67 | `split('@')[0]`: the longest prefix without '@', followed by '@' whenever it is shorter than the input |
| Text.ParseShowInt | store_app/views.py:829-831 | every integer written in decimal parses back to itself |
| Text.ParseInt | store_app/views.py:830-831 | `int()` accepts exactly an optional sign followed by one or more digits once surrounding whitespace is stripped, and yields that literal's value |
| Accounts.FirstUserWithEmail | store_app/utils/review_utils.py:44 | `filter(email=...).first()` is `None` exactly when no user has the e-mail, else a user with that e-mail whose id is the least among them (`.first()` orders by primary key) |
| Accounts.UserById | store_app/utils/review_utils.py:88 | `None` exactly when no user has the id, else a user with that id |
| Accounts.SellerWithProfile | store_app/utils/review_utils.py:37 | `get(id=..., is_seller=True)` finds a user exactly when some user's profile has that id and is a seller |
| Accounts.Without | store_app/management/commands/cleanup_unverified.py:53 | deleting users keeps exactly the rows whose id is not deleted |
| Accounts.WithoutCounts | store_app/management/commands/cleanup_unverified.py:53 | a deleted user's row no longer occurs, and every other row occurs exactly as often as before |
| Accounts.WithoutKeepsDistinct | store_app/management/commands/cleanup_unverified.py:53 | deleting users keeps user ids unique |
| Accounts.WithoutTwice | store_app/management/commands/cleanup_unverified.py:50-54 | deleting one more user after a set is deleting the enlarged set |
| Accounts.AccountStore.DeleteUser | store_app/management/commands/cleanup_unverified.py:53 | `user.delete()` removes that user's row and no other, and ids stay unique |
| PendingSignups.FromRaw | store_app/models.py:307-320 | username, names and phone are the stripped inputs, the e-mail is stripped and lower-cased, the hash and the three flags are the arguments, `created_at` is `now` and `expires_at` is `now` plus 60 minutes |
| PendingSignups.FromRawIdempotent | store_app/models.py:308-317 | rebuilding a record from its own fields changes nothing |
| PendingSignups.NormalisedFieldsFixed | store_app/models.py:309-317 | the stored fields are fixed points of their normalisation |
| PendingSignups.ExpiresAfterSixtyMinutes | store_app/models.py:319-323 | `is_expired` holds exactly from `created_at` + 60 minutes on; it is false one microsecond before and true at that instant |
| PendingSignups.DefaultFlags | store_app/models.py:302-305 | when left unspecified, `is_seller`, `provides_service` and `is_admin` are false and the phone number is empty |
| SignupForm.CleanText | store_app/forms.py:8-16 | a text field is accepted exactly when it is present if required, its stripped value fits the length limit and holds no NUL character; the stripped value is kept; an over-long value gets the length error, otherwise a NUL gets the null-character error |
| SignupForm.CleanEmail | store_app/forms.py:18-24 | accepted exactly when the stripped, lower-cased e-mail ends in "@upr.edu" and is not registered; the domain is checked before novelty |
| SignupForm.CleanUsername | store_app/forms.py:26-30 | accepted exactly when the stripped, lower-cased username is not taken, which is also the value returned |
| SignupForm.PasswordIssues | store_app/forms.py:32-37 | a mismatch gives exactly the `confirm_password` error; a match gives the policy's verdict |
| SignupForm.Decide | store_app/forms.py:32-38 | valid exactly when every field passed, the passwords agree and the policy accepts; the data are the cleaned values |
| SignupForm.DecideIgnoresPolicyOnMismatch | store_app/forms.py:34-37 | with mismatched passwords the policy's answer does not change the outcome |
| SignupForm.ValidateAccepts | store_app/forms.py:7-38 | the whole form is valid exactly when the raw input meets each field's condition, the stripped passwords agree and the policy accepts |
| SignupForm.ValidateYieldsValidData | store_app/forms.py:8-30 | accepted data respect every length limit, hold no NUL character, and have a university e-mail that is lower-case and unregistered, and a free username |
| SignupForm.ValidateRejectsForeignDomain | store_app/forms.py:20-21 | an e-mail outside "@upr.edu" makes the form invalid with the domain error on the e-mail field |
| SignupForm.ValidateMismatchSkipsPolicy | store_app/forms.py:33-37 | mismatched passwords, at least one of which passed its own cleaning, put the error on `confirm_password`, and no policy error appears |
| EmailVerification.TokenHolders | store_app/views.py:474-477 | the rows matched by `get(email_token=token, pending_email_verification=True)`: exactly the pending profiles with that token |
| EmailVerification.TokenHoldersCounts | store_app/views.py:474-479 | each holder is listed exactly as often as it occurs in the table, so `Ambiguous` means more than one holder row, as `MultipleObjectsReturned` does |
| EmailVerification.CheckToken | store_app/views.py:470-488 | invalid exactly when no pending profile holds the token; ambiguous exactly when several do; ok only for a holder that is not strictly past its expiry; expired only for a holder that is |
| EmailVerification.TokenOkWhenUnexpired | store_app/views.py:482-488 | for a single holder, the link is usable exactly when its expiry is unset or not strictly before `now`, and expired otherwise |
| EmailVerification.DistinctTokensNeverAmbiguous | store_app/views.py:474-479 | when no two pending profiles share a token, the lookup never matches two rows |
| EmailVerification.VerifyGet | store_app/views.py:490-504 | GET never activates; it shows the confirmation page exactly when the token is ok, and otherwise the status page |
| EmailVerification.VerifyPost | store_app/views.py:506-520 | POST activates exactly when the token is ok, and only an unexpired pending holder of the token |
| EmailVerification.Reissued | store_app/views.py:528-531 | a re-issued profile carries the fresh token, expires 60 minutes after `now`, and is pending again |
| EmailVerification.SendVerificationEmail | store_app/views.py:523-538 | only the profile of the given user changes, to its re-issued form, and ids stay unique |
| EmailVerification.ResendTable | store_app/views.py:528-538 | after re-issuing, every other row is unchanged and the user holds the fresh token |
| EmailVerification.ResendInvalidatesOldToken | store_app/views.py:528-538 | once re-issued, the previous link is invalid at any time |
| EmailVerification.ResentTokenLifetime | store_app/views.py:484-486 | the fresh link is usable up to and including `now` + 60 minutes and expired strictly after it |
| CleanupUnverified.Candidates | store_app/management/commands/cleanup_unverified.py:28-31 | exactly the users pending verification whose expiry is set and strictly before `now` |
| CleanupUnverified.OrderByExpiry | store_app/management/commands/cleanup_unverified.py:32 | the rows are sorted by expiry and are a permutation of the input |
| CleanupUnverified.Selection | store_app/management/commands/cleanup_unverified.py:28-32 | the selection has min(limit, candidates) rows, sorted by expiry, each an expired pending user, and holds no candidate more often than the candidates do |
| CleanupUnverified.SelectionTakesEarliest | store_app/management/commands/cleanup_unverified.py:32 | a candidate left out of a truncated selection expires no earlier than any selected row |
| CleanupUnverified.Handle | store_app/management/commands/cleanup_unverified.py:22-57 | a negative limit, an empty selection or a dry run deletes nothing; otherwise exactly the selected users are deleted and the count equals the selection size; ids stay unique, and every user that is not an expired pending account survives |
| CleanupUnverified.DeleteAll | store_app/management/commands/cleanup_unverified.py:49-54 | the loop deletes exactly the selected users' ids and counts one per selected row |
| CleanupUnverified.CleanupSparesOthers | store_app/management/commands/cleanup_unverified.py:49-57 | with unique user ids, every user that is not an expired pending account survives a run |
| ExpiryBoundaries.BoundaryInstant | store_app/models.py:322-323 | at the expiry instant `is_expired` already holds while the link still works and cleanup does not select the account; one microsecond later all three agree |
| Messaging.MarkConversationRead | store_app/views.py:736-740 | exactly the conversation's unread messages from others become read at `now`; every other row, and every earlier stamp, is unchanged |
| Messaging.UnreadIn | store_app/views.py:115-119 | the per-conversation count is zero exactly when no message of that conversation is unread for the user |
| Messaging.ViewingClearsUnread | store_app/views.py:736-740 | after a view the viewer has nothing unread in that conversation |
| Messaging.ViewingSparesOtherConversations | store_app/views.py:738 | a view leaves every other conversation's unread count unchanged |
| Messaging.MarkReadIdempotent | store_app/views.py:736-740 | a second view, at any later instant, changes nothing |
| Messaging.MarkKeepsStamps | store_app/views.py:738-740 | every read message keeps a read timestamp |
| Messaging.AfterId | store_app/views.py:826-839 | no lower bound exactly when `last_message_id` is missing, empty or rejected by `int()`; otherwise the bound is the value it parses to |
| Messaging.AfterIdReadsDecimal | store_app/views.py:829-831 | an id written in decimal is honoured exactly |
| Messaging.NewMessages | store_app/views.py:828-838 | exactly the conversation's messages from others with an id above the bound, or all of them without a bound, each taken from the table no more often than it occurs there |
| Messaging.StampFetched | store_app/views.py:841-842 | every fetched row becomes read at `now`, including rows already read; no other row changes |
| Messaging.FetchedAreStamped | store_app/views.py:841-842 | everything the endpoint returns carries the poll's instant |
| Messaging.PollRestampsReadMessages | store_app/views.py:842 | polling overwrites the read time of an already-read message, while viewing keeps it |
| Messaging.UnreadTotalIsSum | store_app/views.py:57-61 | the global unread count equals the sum of the per-conversation counts over the user's conversations |
| Messaging.UnreadAcrossSplit | store_app/views.py:881-886 | counting over one more conversation adds exactly that conversation's count |
| Messaging.FindConversation | store_app/views.py:598-600 | `get_object_or_404` finds a row exactly when a conversation with that id includes the user |
| Messaging.ListingRef | store_app/views.py:626-636 | no reference exactly when the field is empty or rejected by `int()`; otherwise the value it parses to |
| Messaging.StoredRefs | store_app/views.py:639-650 | a message keeps both listing references when each is absent or names an existing listing; otherwise the retry stores neither; either way every stored reference resolves |
| Messaging.Inbox.ViewConversation | store_app/views.py:596-743 | an unknown conversation changes nothing; non-empty stripped content appends exactly one message from the viewer, with its listing references when both resolve and with neither otherwise, and re-saves the conversation; empty content creates nothing; the read marking runs on GET and on a non-AJAX empty POST only |
| Messaging.Inbox.Send | store_app/views.py:618-656 | exactly one message is appended with a fresh id, and only the conversation's `updated_at` changes |
| Messaging.Inbox.MarkRead | store_app/views.py:736-740 | the message table becomes its marked-read form; nothing else changes |
| Messaging.Inbox.GetNewMessages | store_app/views.py:818-842 | an unknown conversation is not found; otherwise the fetched messages are returned and stamped read |
| Mentions.MentionRows | store_app/views.py:130-135 | every row carries a listing's real name, and an id appears among the rows exactly when some message of the conversation references that existing listing |
| Mentions.MessageWithoutListingAddsNothing | store_app/views.py:130-135 | a message without a product or service contributes no row |
| Mentions.Dedup | store_app/views.py:138-153 | the dict keeps one entry per distinct id, ordered by each id's first row and named by its last row |
| Mentions.MentionedListings | store_app/views.py:130-153 | the mentioned listings have distinct ids, each with its listing's name, and an id is listed exactly when some message of the conversation references it |
| Catalog.NumDigitsBound | store_app/models.py:50 | a number has at most k digits exactly when it is below 10^k |
| Catalog.MoneyFieldRange | store_app/models.py:50-58 | a six-digit, two-place column holds exactly -9999.99 to 9999.99, including the default 0.00 |
| Catalog.Discount | store_app/views.py:220-224 | an empty discount field gives 0; otherwise the discount is the given percentage of the price |
| Catalog.DiscountWithinPrice | store_app/views.py:220-224 | a percentage from 0 to 100 of a non-negative price lies between 0 and the price |
| Catalog.DiscountUncapped | store_app/views.py:220-224 | nothing caps the percentage: above 100 the discount exceeds the price |
| Catalog.ImagesFor | store_app/views.py:253-254 | the i-th upload becomes the gallery row with order i |
| Catalog.GalleryOfNewProduct | store_app/views.py:253-254 | a new listing's gallery is exactly its uploads in upload order |
| Catalog.Catalog.AddProduct | store_app/views.py:211-260 | an unknown category, zero images or more than five images create nothing; otherwise one product with the first upload as its image, and one gallery row per upload |
| Catalog.Catalog.AddGallery | store_app/views.py:253-254 | the gallery table gains exactly one row per upload, numbered from 0 in upload order, and nothing else changes |
| Catalog.CreatedGallery | store_app/views.py:240-254 | after creation the gallery is the uploads, and its order-0 row is the legacy image |
| Ratings.FindRating | store_app/utils/review_utils.py:47-50 | the first row of the (seller, e-mail) pair in table order, or none exactly when the pair has no row |
| Ratings.Upsert | store_app/utils/review_utils.py:52-73 | an existing pair keeps the row count and a new pair appends one row; rows of other pairs are unchanged |
| Ratings.UpsertPairCount | store_app/utils/review_utils.py:52-73 | an update keeps the pair's row count, a creation takes it from 0 to 1; with one row per pair the pair ends with exactly one |
| Ratings.UpsertKeepsOnePerPair | store_app/utils/review_utils.py:47-73 | a submission keeps at most one row per (seller, e-mail) pair |
| Ratings.UpsertStoresSubmission | store_app/utils/review_utils.py:47-71 | the pair's row holds the new score and text, the given name, and the matching account; a new row gets the fresh id, defaults its name to the e-mail's local part, and records the matching account's id (or none) as the original reviewer; an update stays at the same position and keeps the old name when none is given, the old account when none matches, and the id, pair, original reviewer, deletion flags and snapshot |
| Ratings.Tombstone | store_app/utils/review_utils.py:93-105 | no row is removed; rows unrelated to the user are unchanged; a row the user sold under gets seller = None and the deleted flag (with the e-mail snapshot when asked); a row the user wrote gets reviewer_user = None, the deleted flag and the deleted-user label; every other field, the original reviewer id included, is kept, so no row still refers to the user |
| Ratings.TombstoneIdempotent | store_app/utils/review_utils.py:93-105 | tombstoning twice is tombstoning once |
| Ratings.RatingsOf | store_app/utils/review_utils.py:128 | `ratings_received` is exactly the rows whose seller is the profile |
| Ratings.RatingsOfCounts | store_app/utils/review_utils.py:128-134 | each of the seller's rows is counted exactly as often as it occurs in the table, so `total_ratings` is their number |
| Ratings.VerifiedPlusAnonymous | store_app/utils/review_utils.py:132-134 | verified plus anonymous reviews equal the total |
| Ratings.DistributionCoversRange | store_app/utils/review_utils.py:138-140 | the distribution never counts more than the total, and counts all of it exactly when every score lies in 1..5 |
| Ratings.RatingStore.SubmitRating | store_app/utils/review_utils.py:29-79 | an unknown seller is reported first, then an invalid e-mail (empty or without '@'); otherwise the table becomes its upsert, and `created` says whether the pair was new |
| Ratings.RatingStore.HandleUserDeletion | store_app/utils/review_utils.py:81-108 | an unknown id answers false and changes nothing; otherwise the table becomes its tombstoned form with the seller e-mail snapshot; the store's id invariant is kept |
| Ratings.RatingStore.SellerStatsOf | store_app/utils/review_utils.py:114-148 | a non-seller gets zeros and no distribution; a seller gets the total, verified and anonymous counts and a distribution with keys 1..5 |
| Signals.HandleUserPreDelete | store_app/signals.py:5-24 | the table becomes its tombstoned form without the seller e-mail snapshot; the store's id invariant is kept |
| Signals.SignalSkipsSnapshot | store_app/signals.py:13-17 | the signal leaves the same rows as `review_utils` except for the seller e-mail snapshot |
| Signals.SignalKeepsSnapshot | store_app/signals.py:14-17 | the signal never changes a row's seller e-mail snapshot |

## Left out

- E-mail sending is not modelled. The message itself is I/O.
- Token generation is not modelled. `new_email_token()` is random and is outside this model, so the fresh token is a parameter.
- Password hashing, `authenticate`/`login` and `validate_password` are not modelled. `validate_password` is a library call, so its verdict is the `policyAccepts` parameter.
- E-mail syntax checking by `forms.EmailField` is not modelled.
- SignupForm.PasswordIssues: when both `password` and `confirm_password` fail their own cleaning, the code compares `None` with `None` and calls `validate_password(None)`. What that call does depends on the configured validators, which are outside this model; the model gives it the `policyAccepts` verdict like any other call. With length-checking validators the call raises an error that is not a validation error, which the model does not capture.
- SignupForm.CleanText reports one error per field. Django runs the length and NUL validators together, so an over-long value that also holds a NUL is reported with both errors; the model reports only the length error. Whether the field is valid is the same either way.
- Text.Strip states only the shape of its result in its own contract: no longer than the input and no whitespace at either end. That the result is exactly the input without its surrounding whitespace is stated by the lemma `Text.StripPadded`.
- `lower()` is modelled for ASCII letters only. Non-ASCII case mapping is not modelled.
- `int()` is modelled for optional sign and ASCII digits only. Underscore separators and non-ASCII digits are not modelled.
- Parsing of prices and percentages is not modelled. `add_product` parses them with `float()`, and the model works on exact `real` values instead. Floating-point rounding and parse errors are not modelled.
- Decimal rounding when the database stores a discount with two places is not modelled.
- Catalog.Catalog.AddProduct does not bound the price, because the code does not either. What the database does with a value outside the column's range (`Catalog.MoneyFieldRange`) is not modelled: there the model still records the product. `store_app/tests.py` expects prices above 9999.99 and negative prices to be rejected, and expects a product with no images to succeed, which the code refuses. The model follows the code.
- Catalog.Catalog.AddProduct covers only POST. The GET form page is rendering.
- `add_service` is not part of this model.
- `mark_verified` is outside this model. `VerifyPost` returns `Activate(userId)` in its place.
- `get_other_participant` and the rest of the `Conversation` and `Message` internals are not part of this model.
- Messaging.Inbox.ViewConversation models the first create failing only on a listing reference that names no listing, with the database in autocommit mode. It then stores the message with neither reference (`Messaging.StoredRefs`). Other failures are not modelled: a schema without the listing columns, or a request-wide transaction that defers the foreign-key check to the end of the request.
- The JSON error returned when message creation fails is not modelled.
- Rendering, flash messages, JSON shaping and timestamp formatting are not modelled.
- Messaging.Inbox.ViewConversation: `conversation.save()` is modelled as stamping `updated_at` with `now`, as the code's comment says. The declaration of `updated_at` is outside this model.
- CleanupUnverified.Handle does not chain the `pre_delete` signal. The signal is modelled on its own in `Signals.HandleUserPreDelete`.
- CleanupUnverified.OrderByExpiry keeps table order among equal expiries. The database does not promise any order for ties.
- Ratings.NewRating starts `seller_was_deleted` and `reviewer_account_deleted` at false and `original_seller_email` at `None`. `submit_rating_for_seller` does not set these fields, so they take the `SellerRating` model's defaults. That model is outside this model, and these defaults are assumed.
- Ratings.FindRating takes the pair's first row in table order. The default ordering of `SellerRating` is outside this model. While the table keeps one row per pair (`Ratings.UpsertKeepsOnePerPair`), the choice makes no difference.
- Ratings.RatingStore.SellerStatsOf leaves out the rounded average rating, because it is floating point.
- Ratings.RatingStore.HandleUserDeletion does not model the error path that returns `False` when a database update fails.
- Ratings.RatingStore.HandleUserDeletion assumes that the function-local `from .models import SellerRating` at `store_app/utils/review_utils.py:85` resolves to the rating table. That import is relative to the `utils` package, and its target module is not part of this model.
- `get_seller_by_email` is not modelled. Nothing in the modelled code calls it.
- Concurrency is not modelled: the get-or-create race, and transactions other than their all-or-nothing effect.
- `ResendVerificationView`, `SignupView` and the login view are not part of this model. `_send_verification_email` is modelled on its own.

## Where the code and its description differ

The model follows the code in each case:

- **Image count.** `add_product` rejects a listing with zero images (`store_app/views.py:230-233`).
- **Price bound.** The price and discount columns hold at most 9999.99, not 99,999.99 (`store_app/models.py:50,56-58`).
- **Rating score.** The score is stored without a range check (`store_app/utils/review_utils.py:54,69`). `Ratings.DistributionCoversRange` shows what an out-of-range score does to the distribution.
- **Read time on polling.** `get_new_messages` re-stamps the read time of messages that were already read (`store_app/views.py:842`).
- **Expiry comparisons.** At the expiry instant, `is_expired` uses `>=` while the verification view and the cleanup command use a strict `<`. `ExpiryBoundaries.BoundaryInstant` states the consequence.
