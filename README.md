# cinemix catalogue: a Dafny model

cinemix is a movie catalogue with a Django REST backend and a React client.
This project models its logic and proves properties of it. The modules are:

- **Catalog** (`catalog.dfy`): the database as a class `CatalogStore`. It holds
  the Filme, Review, User, Watchlist and Favorito tables and the auto-increment
  counters.
  - The rating-aggregate hook of `signals.py` is a `Recompute` method. It is
    called right after every review write, where Django sends `post_save` and
    `post_delete`.
  - The store also models the `on_delete=CASCADE` rules and the actions of
    `views.py`: status, the two toggles, `create_review`, the review viewset,
    the list querysets and registration.
  - `Valid()` states the database constraints: foreign keys, `unique_together`,
    unique slug, unique `imdb_id` and unique username.
- **Aggregates**: the mean and count that `Avg("rating")` / `Count("id")`
  compute, as exact rationals. Also the per-movie rating sequence and the
  newest-first review listing.
- **Models**, **Lists**: the Filme/Review/User records, the slug default of
  `Filme.save`, the listing order, and the list tables with their toggle and
  cascade rules.
- **Serializers**: registration validation, review payload validation (with
  `autor` read-only) and the movie field sets.
- **Permissions**: `IsOwnerOrReadOnly.has_object_permission`.
- **Imdb**: the poster-URL rewrite `re.sub(r'\._V1_.*\.jpg', '._V1_.jpg', url)`,
  modelled with the regular-expression engine's leftmost/greedy semantics, and
  the `imdb_id` extraction from a title link.
- **PasswordRules**, **Session**, **Registration**, **ReviewForms**,
  **MovieDetail**: the React client.
  - the password-strength rule;
  - the user store;
  - the registration page;
  - the review form;
  - the movie page with its optimistic toggles.

  Each awaited request is a parameter that stands for its outcome.
- **Scenarios**: the rating sequence of `test_review_signal_updates_rating`
  run against the store, and the review-move scenario of the finding below.

Where the code and its own documentation disagree, the model follows the code:

- **`reviews_count`.** `Filme` declares no `reviews_count` field, but the hook
  writes one and the test reads one. The model gives Filme that field.
- **Rating range.** The 1..5 range is a field validator, so only the serializer
  path enforces it. The store accepts any natural rating, as
  `Review.objects.create` in the test does (it stores 10). Every aggregate
  lemma holds for any rating.
- **`IsOwnerOrReadOnly`.** It is attached to no view: `ReviewViewSet` uses
  `IsAuthenticatedOrReadOnly`. It is modelled as a predicate on its own. In the
  viewset, any authenticated user may update or delete any review.
- **`ReviewViewSet.create`.** `ReviewSerializer` has no `filme` field and
  `perform_create` supplies only `autor`. A valid payload therefore ends in the
  database's NOT NULL error (500) and nothing is stored.
- **The mean is not a global invariant.** The import command assigns
  `media_rating` directly, and `FilmeWriteSerializer` exposes every field. The
  aggregate is therefore a postcondition of each review write
  (`InSync(f)`), and each write also keeps the other movies' sync
  (`old(AllInSync()) ==> AllInSync()`).

## Model

| member | source | states |
|---|---|---|
| Models.NewFilme | backend/core/models/filme.py:44-49 | a newly created movie has media_rating 0.0 and reviews_count 0, no imdb_id and blank optional fields |
| Models.SlugSource | backend/core/models/filme.py:73 | the text handed to slugify starts with the title followed by '-' |
| Models.WithDefaultSlug | backend/core/models/filme.py:71-74 | save changes only the slug; a non-empty slug is kept, an empty one becomes slugify("{titulo}-{ano_lancamento}") |
| Models.SaveSlugIdempotent | backend/core/models/filme.py:71-74 | saving twice fills the slug in no differently from saving once |
| Models.LexLeTotal | backend/core/models/filme.py:69 | any two titles are comparable in the title order |
| Models.LexLeTransitive | backend/core/models/filme.py:69 | the title order is transitive |
| Models.LexLeAntisymmetric | backend/core/models/filme.py:69 | titles ordered both ways are equal |
| Models.ListingOrderTotal | backend/core/models/filme.py:69 | under ["-media_rating", "titulo"] any two movies are comparable |
| Models.ListingOrderTransitive | backend/core/models/filme.py:69 | the listing order is transitive |
| Models.ListingOrderTies | backend/core/models/filme.py:69 | two movies each listed before the other have equal rating and equal title |
| Lists.Without | backend/core/views.py:57 | deleting a list row removes exactly that pair and keeps every other |
| Lists.WithoutKeepsUnique | backend/core/models/listas.py:28-34 | deleting a row keeps the (utilizador, filme) pairs unique |
| Lists.WithoutAbsent | backend/core/views.py:55-58 | deleting an absent pair changes nothing |
| Lists.Toggle | backend/core/views.py:55-59 | an absent pair is inserted and a present one deleted; the set of pairs gains or loses exactly that pair |
| Lists.ToggleKeepsUnique | backend/core/models/listas.py:28-34 | a toggle keeps the unique_together constraint |
| Lists.ToggleTwiceRestoresPairs | backend/core/views.py:51-59 | two toggles of one pair restore the stored set of pairs |
| Lists.ToggleTwiceFromAbsent | backend/core/views.py:51-59 | from an absent pair two toggles restore the table exactly, order included |
| Lists.ToggleOnlyTouchesItsPair | backend/core/views.py:51-59 | a toggle leaves the membership of every other pair unchanged |
| Lists.EntriesOf | backend/core/views.py:103-104 | the listing holds exactly the movies of the requester's own rows |
| Lists.CascadeDrop | backend/core/models/listas.py:10-21 | on_delete=CASCADE keeps exactly the rows that do not reference the deleted user or movie |
| Lists.CascadeKeepsUnique | backend/core/models/listas.py:28-34 | a cascade keeps the pairs unique |
| Aggregates.Mean | backend/core/signals.py:46-53 | the mean times the count equals the sum of the ratings; it is 0.0 (the `or 0.0`) when there are none |
| Aggregates.MeanBounds | backend/core/models/review.py:33-37 | ratings that all lie in [lo, hi] have a mean in [lo, hi]; so 1..5 ratings average within 1..5 |
| Aggregates.ReviewsNewestFirst | backend/core/models/review.py:51 | a movie's review listing holds exactly its reviews, newest (highest id) first, with no repeats |
| Aggregates.ListingLengthIsCount | backend/core/views.py:71-76 | the list_reviews listing is as long as the count the aggregate records |
| Aggregates.CountIsNumberOfReviews | backend/core/signals.py:46-54 | the aggregated count equals the number of reviews whose filme is f |
| Aggregates.RatingsAreThoseOfTheMovie | backend/core/signals.py:46-49 | a rating is aggregated iff some review of the movie carries it |
| Aggregates.RatingsFollowTheListing | backend/core/signals.py:46-49 | the aggregated ratings are exactly the ratings of the movie's review listing, one per review with multiplicities, in creation order |
| Aggregates.ListingIsStored | backend/core/models/review.py:51 | every id in a movie's review listing names a stored review |
| Aggregates.RatingsBeyondLastId | backend/core/signals.py:46 | raising the id bound past every stored id aggregates no further rating |
| Aggregates.RatingsFrame | backend/core/signals.py:46 | the aggregate of f depends only on the reviews of f |
| Aggregates.RatingsAfterInsert | backend/core/signals.py:46-49 | inserting a review appends its rating to its own movie's ratings and to no other |
| Aggregates.Synced | backend/core/signals.py:53-60 | the write changes only media_rating, reviews_count and updated_at; the count is 0 iff there are no ratings, and then the mean is 0.0 |
| Aggregates.RecomputeOn | backend/core/signals.py:26-60 | a missing movie leaves the table as it was; otherwise only f is rewritten, with the count of its reviews and the mean of their ratings |
| Aggregates.RecomputeIdempotent | backend/core/signals.py:26-60 | a second recompute with no review change gives the same table |
| Serializers.Strip | backend/core/serializers.py:49-56 | the trimmed text is a slice of the input with only whitespace cut at each end and none left at the ends |
| Serializers.LeadingSpaces | backend/core/serializers.py:72 | the leading whitespace run: every character before it is whitespace and the one after it is not |
| Serializers.StripCharacterized | backend/core/serializers.py:72 | any slice with only whitespace before and after it and none at its own ends is the trimmed text |
| Serializers.BlankIsAllSpace | backend/core/serializers.py:49-56 | text is blank after trimming iff every character is whitespace |
| Serializers.StripIdempotent | backend/core/serializers.py:49-56 | trimming twice equals trimming once |
| Serializers.LeadingSpaceStripped | backend/core/serializers.py:72 | trimming ignores one leading whitespace character |
| Serializers.NoSpaceAtEnds | backend/core/serializers.py:72 | text with no whitespace at either end is left as it is by trimming |
| Serializers.CleanedIdempotent | backend/core/serializers.py:71-80 | trimming the registration fields twice equals trimming them once |
| Serializers.Validate | backend/core/serializers.py:82-85 | validation succeeds iff the passwords match, returns the attributes unchanged, and otherwise reports "password" |
| Serializers.ValidateRegistration | backend/core/serializers.py:71-85 | the four fields are trimmed first; registration passes iff the trimmed username is non-empty, at most 150 characters, passes the character validator and is free, the email is present and either blank or a well-formed address of at most 254 characters, the trimmed password is non-empty and meets the policy, the trimmed confirmation is non-empty and the two match; the accepted record holds the trimmed values; a rejection reports at least one key |
| Serializers.RegistrationFieldKeys | backend/core/serializers.py:71-80 | "username" is reported iff the trimmed username is blank, too long, refused by the character validator or taken; "email" iff it is missing, or non-blank and too long or malformed; "password2" iff the trimmed confirmation is blank |
| Serializers.RegistrationPasswordKey | backend/core/serializers.py:72-85 | "password" is reported iff the trimmed password is blank, fails the policy, or every field passed and the passwords differ; in that last case it is the only key |
| Serializers.SurroundingSpaceIgnored | backend/core/serializers.py:71-80 | a registration gets the same verdict as its trimmed copy |
| Serializers.LeadingSpaceOnPasswordIgnored | backend/core/serializers.py:72 | a leading space on the password does not change the verdict |
| Serializers.BlankUsernameRejected | backend/core/serializers.py:71-80 | an all-space username is rejected with "username" |
| Serializers.MalformedEmailRejected | backend/core/serializers.py:71-80 | a non-blank address the email check refuses is rejected with "email" |
| Serializers.BlankEmailAccepted | backend/core/serializers.py:71-80 | a blank email is never reported, whatever the address check says (the User field is blank=True) |
| Serializers.LongUsernameRejected | backend/core/serializers.py:71-80 | a trimmed username over 150 characters is rejected with "username" |
| Serializers.TrimmedRegistrationAccepted | backend/core/serializers.py:71-85 | a registration with no surrounding space, lengths within the limits, a free username, matching passwords and every validator passing is accepted unchanged |
| Serializers.LastIndexOf | backend/core/serializers.py:87-93 | the index create_user's email split cuts at: an '@' with none after it, or -1 when the text holds none |
| Serializers.LastIndexOfUnique | backend/core/serializers.py:87-93 | an '@' with none after it is the one the split finds |
| Serializers.NormalizeAddress | backend/core/serializers.py:87-93 | normalize_email on a stripped address: same length; without an '@' nothing changes; up to and including the last '@' every character is kept; after it the text is the same up to case and holds no capital |
| Serializers.NormalizeAddressKeepsSplit | backend/core/serializers.py:87-93 | normalising keeps the last '@' at the same place |
| Serializers.NormalizeAddressIdempotent | backend/core/serializers.py:87-93 | normalising a normalised address changes nothing |
| Serializers.NormalizeAddressEnds | backend/core/serializers.py:87-93 | normalising puts no whitespace at the ends of the address |
| Serializers.NormalizeEmail | backend/core/serializers.py:87-93 | create_user's email is the stripped address with its domain normalised |
| Serializers.NormalizeEmailIdempotent | backend/core/serializers.py:87-93 | a stored email is its own normal form |
| Serializers.NormalizeAddressExample | backend/core/serializers.py:87-93 | "ana@Example.COM" is stored as "ana@example.com" |
| Serializers.NewUser | backend/core/serializers.py:87-93 | create_user builds the account from the NFKC form of the username, the normalised email and the password; password2 is not used |
| Serializers.Password2NeverStored | backend/core/serializers.py:87-93 | password2 has no effect on the stored account |
| Serializers.ValidateNewReview | backend/core/serializers.py:49-56 | a new review is valid iff texto is non-blank and rating is in 1..5 (titulo at most 200); defaults: titulo "" and spoiler false |
| Serializers.ValidateUpdate | backend/core/serializers.py:49-56 | an update passes iff the payload has no field error, and keeps filme and autor; a given rating is stored and lies in 1..5; an absent rating or texto is allowed only in a partial update (PATCH) and keeps the old value; a given texto is stored trimmed and non-blank; an absent titulo or spoiler keeps the stored value on PUT and PATCH alike |
| Serializers.EmptyPatchKeepsReview | backend/core/serializers.py:49-56 | a PATCH with no field leaves the review as it was |
| Serializers.UpdateIdempotent | backend/core/serializers.py:49-56 | applying an accepted update a second time changes nothing more |
| Serializers.FullUpdateAgreesWithCreation | backend/core/serializers.py:49-56 | a PUT that carries titulo and spoiler passes iff the same payload would create a review, and then stores exactly those fields on the old movie and author |
| Serializers.AutorIsReadOnly | backend/core/serializers.py:50-56 | a client-supplied autor never changes the validation result |
| Serializers.SerializerFor | backend/core/views.py:32-37 | list uses the list serializer; create/update/partial_update the write one; anything else the detail one |
| Serializers.RenderedFields | backend/core/serializers.py:24-37 | the detail fields are the list fields followed by descricao, imdb_id, created_at, updated_at |
| Serializers.DetailExtendsList | backend/core/serializers.py:28-37 | every list field is a detail field; media_rating is listed, descricao only in detail |
| Catalog.ReplaceKeepsOneReview | backend/core/models/review.py:53 | rewriting a review without clashing keeps one review per (filme, autor) |
| Catalog.ReplaceKeepsOthersSynced | backend/core/signals.py:63-78 | rewriting a review leaves every movie other than its old and new one in sync |
| Catalog.InsertKeepsOthersSynced | backend/core/signals.py:63-78 | inserting a review appends its rating to its movie and leaves the others in sync |
| Catalog.DeleteKeepsOthersSynced | backend/core/signals.py:81-95 | deleting a review takes one off its movie's count and leaves the others in sync |
| Catalog.CascadeKeepsOthersSynced | backend/core/models/review.py:11-22 | a cascade that removes reviews only of the touched movies leaves the others in sync |
| Catalog.RecomputeAllOn | backend/core/signals.py:81-95 | after one recompute per movie in a set, those movies are in sync and the rest unchanged |
| Catalog.RecomputeAllStep | backend/core/signals.py:26-60 | one more recompute extends the recomputed set by that movie |
| Catalog.ReviewsWithout | backend/core/models/review.py:11-22 | a cascade keeps exactly the reviews that do not reference the deleted row, unchanged |
| Catalog.NoReviewsNoRatings | backend/core/signals.py:46-54 | a movie no review references aggregates nothing |
| Catalog.CatalogStore.FilmeWithSlug | backend/core/views.py:30 | the slug lookup finds the movie with that slug, or reports that none has it |
| Catalog.CatalogStore.Recompute | backend/core/signals.py:26-60 | f is in sync and touched; only its three fields change; a missing f changes nothing; other movies keep their sync |
| Catalog.CatalogStore.ReviewPostSave | backend/core/signals.py:63-78 | post_save recomputes the saved review's movie |
| Catalog.CatalogStore.ReviewPostDelete | backend/core/signals.py:81-95 | post_delete recomputes the deleted review's movie |
| Catalog.CatalogStore.CreateReviewRecord | backend/core/signals.py:63-78 | the insert fails iff the movie or author is missing or the pair already has a review; on success the rating is appended and the movie is in sync |
| Catalog.CatalogStore.InsertReviewRow | backend/core/models/review.py:11-53 | a new row goes in under the next id, keeping the foreign keys and unique_together, and appends its rating |
| Catalog.CatalogStore.SaveReviewRecord | backend/core/signals.py:63-78 | a save rewrites the row and recomputes only the movie the review now belongs to |
| Catalog.CatalogStore.SaveReviewRecordResyncing | backend/core/signals.py:63-78 | the corrected save: both the left and the joined movie are in sync afterwards, and all-in-sync is preserved |
| Catalog.CatalogStore.DeleteReviewRecord | backend/core/signals.py:81-95 | the row goes, its movie's count drops by one and that movie is in sync |
| Catalog.CatalogStore.DeleteFilme | backend/core/models/review.py:11-16 | deleting a movie deletes its reviews and list rows and keeps every other movie in sync |
| Catalog.CatalogStore.DeleteUser | backend/core/models/review.py:17-22 | deleting a user deletes their reviews and list rows, and every movie they reviewed is recomputed into sync |
| Catalog.CatalogStore.DeleteUserRows | backend/core/models/listas.py:10-15 | the row deletions of a user delete leave in sync every movie the user had not reviewed |
| Catalog.CatalogStore.RecomputeEach | backend/core/signals.py:81-95 | one recompute per movie of the set gives the table RecomputeAllOn describes |
| Catalog.CatalogStore.GetObject | backend/core/views.py:27-30 | the route's slug yields the movie with that slug, or not found when no movie has it |
| Catalog.CatalogStore.Status | backend/core/views.py:39-49 | an anonymous user gets both flags false; otherwise 404 for an unknown slug or the pair's membership in each list |
| Catalog.CatalogStore.ToggleWatchlist | backend/core/views.py:51-59 | an absent pair is inserted (201, true), a present one deleted (200, false); favorites, reviews and movies unchanged |
| Catalog.CatalogStore.ToggleFavorite | backend/core/views.py:61-69 | the same rules on favorites only; the watchlist is unchanged |
| Catalog.CatalogStore.CreateReview | backend/core/views.py:78-88 | a second review by the same author is refused with 400 and no change; invalid data gives 400 with the field errors; otherwise exactly one review (author = requester, movie = route) is added and that movie is in sync |
| Catalog.CatalogStore.PerformCreate | backend/core/views.py:96-97 | anonymous gives 401, invalid data 400, a valid payload the NOT NULL error; nothing is stored |
| Catalog.CatalogStore.UpdateReview | backend/core/views.py:91-97 | any authenticated user may update; an invalid payload gives 400 with the validator's field errors and changes nothing; a valid one stores and answers the validated review (absent fields keep their stored values, movie and author are kept) and the movie's aggregates are recomputed |
| Catalog.CatalogStore.DestroyReview | backend/core/views.py:91-97 | any authenticated user may delete (204); the review's movie is in sync afterwards |
| Catalog.CatalogStore.WatchlistOf | backend/core/views.py:103-104 | the watchlist listing holds exactly the requester's own entries |
| Catalog.CatalogStore.FavoritesOf | backend/core/views.py:112-113 | the favourites listing holds exactly the requester's own entries |
| Catalog.CatalogStore.Register | backend/core/views.py:115-118 | an invalid registration gives 400 with its error keys and no change; a valid one whose normalised username is already taken gives the 500 of the failed INSERT and no change; otherwise one user is added under the next id with the normalised username, the normalised email and the trimmed password, and the 201 answer holds id, stored username and stored email only (the passwords are write-only) |
| Catalog.CatalogStore.InsertUserRow | backend/core/serializers.py:87-93 | create_user inserts the row under the next id and changes no other table; usernames stay unique |
| Catalog.CatalogStore.CreateFilme | backend/core/models/filme.py:71-74 | the slug is defaulted; the insert fails iff the slug or the imdb_id is already taken, and then changes nothing; otherwise the movie is stored under the next id; a movie created at 0.0/0 keeps all movies in sync |
| Imdb.GreedyJpg | backend/core/management/commands/fetch_imdb_top250.py:13 | the greedy `.*` ends at a ".jpg" at or after the end of "._V1_" |
| Imdb.FirstMatch | backend/core/management/commands/fetch_imdb_top250.py:13 | a match starts with "._V1_" at or after k and ends with ".jpg" |
| Imdb.Rewritten | backend/core/management/commands/fetch_imdb_top250.py:13 | without "._V1_", or without ".jpg" after it, the URL is unchanged |
| Imdb.FirstMatchWithoutNewline | backend/core/management/commands/fetch_imdb_top250.py:13 | on newline-free input the leftmost match runs from the first "._V1_" to the last ".jpg" after it |
| Imdb.HighResPosterUrlIsRewrite | backend/core/management/commands/fetch_imdb_top250.py:10-13 | on newline-free input the substitution equals the closed-form rewrite |
| Imdb.EmptyUrl | backend/core/management/commands/fetch_imdb_top250.py:11-12 | the empty URL gives "" |
| Imdb.RewriteKeepsPrefixAndSuffix | backend/core/management/commands/fetch_imdb_top250.py:13 | the prefix before the first "._V1_" and the suffix after the last ".jpg" are kept, with exactly "._V1_.jpg" between |
| Imdb.NoMatchUnchanged | backend/core/management/commands/fetch_imdb_top250.py:13 | a URL with no "._V1_" followed by ".jpg" is returned unchanged |
| Imdb.RewrittenIdempotent | backend/core/management/commands/fetch_imdb_top250.py:13 | the rewrite applied twice equals once |
| Imdb.HighResPosterUrlIdempotent | backend/core/management/commands/fetch_imdb_top250.py:10-13 | get_high_res_poster_url is idempotent on newline-free URLs |
| Imdb.Split | backend/core/management/commands/fetch_imdb_top250.py:54 | split yields at least one field and no field contains the separator |
| Imdb.JoinSplit | backend/core/management/commands/fetch_imdb_top250.py:54 | joining the fields with the separator gives back the input |
| Imdb.ImdbIdFromHref | backend/core/management/commands/fetch_imdb_top250.py:54 | an id exists iff the href has more than two fields, and it contains no '/' |
| Imdb.ImdbIdOfTitleLink | backend/core/management/commands/fetch_imdb_top250.py:54 | "/kind/id/rest" yields id |
| Imdb.ImdbIdExample | backend/core/management/commands/fetch_imdb_top250.py:54 | "/title/tt0111161/" yields "tt0111161" |
| Imdb.NoSlashNoId | backend/core/management/commands/fetch_imdb_top250.py:102-104 | a link with no '/' raises IndexError, so the item is skipped |
| Permissions.Owner | backend/core/permissions.py:48 | the owner is autor when present, else utilizador; none iff both are missing |
| Permissions.HasObjectPermission | backend/core/permissions.py:23-51 | safe methods are always allowed; any other method is allowed iff the requester is authenticated and is the object's owner |
| Permissions.OwnerlessDenied | backend/core/permissions.py:48-51 | an object with no owner attribute allows only safe methods |
| Permissions.AnonymousDenied | backend/core/permissions.py:39-51 | an anonymous request may only read |
| Permissions.AutorTakesPrecedence | backend/core/permissions.py:48 | when autor is set, utilizador is ignored |
| PasswordRules.RequirementsOf | frontend/src/features/auth/components/PasswordInput.tsx:32-38 | each flag is its own test: length ≥ 8, a digit, an A-Z letter, one of !@#$%^&* |
| PasswordRules.EmptyIsWeak | frontend/src/features/auth/components/PasswordInput.tsx:33-39 | the empty password meets no requirement and is invalid |
| PasswordRules.AppendKeepsRequirements | frontend/src/features/auth/components/PasswordInput.tsx:33-36 | appending characters keeps every met requirement met |
| PasswordRules.AppendKeepsStrong | frontend/src/features/auth/components/PasswordInput.tsx:33-39 | appending never turns a valid password invalid |
| PasswordRules.OnlyAsciiUppercaseAndListedSpecials | frontend/src/features/auth/components/PasswordInput.tsx:35-36 | accented capitals are not uppercase and '?', '-', '_', '+' are not special |
| PasswordRules.StrongExample | frontend/src/features/auth/components/PasswordInput.tsx:33-39 | "Abcdef1!" meets all four requirements |
| PasswordRules.MissingLengthOnly | frontend/src/features/auth/components/PasswordInput.tsx:33 | the length flag can fail while the other three hold |
| PasswordRules.MissingDigitOnly | frontend/src/features/auth/components/PasswordInput.tsx:34 | the digit flag can fail while the other three hold |
| PasswordRules.MissingUppercaseOnly | frontend/src/features/auth/components/PasswordInput.tsx:35 | the uppercase flag can fail while the other three hold |
| PasswordRules.MissingSpecialOnly | frontend/src/features/auth/components/PasswordInput.tsx:36 | the special flag can fail while the other three hold |
| Session.WithoutTokens | frontend/src/store/userStore.ts:41-42 | both token keys are gone and every other key is kept |
| Session.WithoutTokensIdempotent | frontend/src/store/userStore.ts:41-42 | removing the tokens twice equals once |
| Session.WithoutTokensNoTokens | frontend/src/store/userStore.ts:41-42 | a storage with no tokens is untouched |
| Session.StoreKeysDistinct | frontend/src/store/userStore.ts:41-46 | the persist key and the two token keys are distinct |
| Session.Rehydrated | frontend/src/store/userStore.ts:45-48 | a persisted state under "user-storage" is restored as it is; anything else restores nobody logged in |
| Session.UserStore.constructor | frontend/src/store/userStore.ts:27-48 | the state is rehydrated from the "user-storage" key when it holds a persisted state, otherwise nobody is logged in; the storage is not written |
| Session.UserStore.SetUser | frontend/src/store/userStore.ts:33-48 | the user is replaced, isAuthenticated becomes whether one is given, and the new state is persisted under "user-storage"; every other key is kept |
| Session.UserStore.Logout | frontend/src/store/userStore.ts:38-48 | no user, not authenticated, the logged-out state persisted under "user-storage", both token keys removed; every other key is kept |
| Session.LoginThenLogout | frontend/src/store/userStore.ts:33-48 | after login then logout the store is unauthenticated, holds no token, and a reload finds nobody logged in |
| Session.LoginSurvivesReload | frontend/src/store/userStore.ts:20-35 | after a login, a new store over the same storage finds the same user logged in |
| Registration.SubmitDisabled | frontend/src/pages/RegisterPage.tsx:57 | the button is disabled iff loading, the password is invalid or the two passwords differ |
| Registration.ShowMismatch | frontend/src/pages/RegisterPage.tsx:82-83 | the warning shows iff both fields are non-empty and differ |
| Registration.EnabledSubmitMeansStrongConfirmed | frontend/src/pages/RegisterPage.tsx:57 | an enabled button means equal passwords of at least 8 characters meeting every requirement |
| Registration.MismatchDisablesSubmit | frontend/src/pages/RegisterPage.tsx:57 | whenever the mismatch warning shows, the button is disabled |
| Registration.EnabledSubmitPassesServerValidate | frontend/src/pages/RegisterPage.tsx:57 | from an enabled button the trimmed request passes the server's password comparison, and neither trimmed password is blank |
| Registration.FeedbackFor | frontend/src/pages/RegisterPage.tsx:39-50 | a non-empty text body is the message; an object gives field errors plus the generic message; no data gives the unexpected message |
| Registration.ServerErrorBody | backend/core/serializers.py:82-85 | the 400 body has one entry per reported key |
| Registration.RejectionMarksReportedFields | frontend/src/pages/RegisterPage.tsx:44-46 | a rejected registration marks exactly the fields the serializer reported; email is marked iff it is missing or refused |
| Registration.RegisterPage.constructor | frontend/src/pages/RegisterPage.tsx:18-25 | every field starts empty, with no error, not loading and an invalid password |
| Registration.RegisterPage.SetPassword | frontend/src/pages/RegisterPage.tsx:78 | typing a password records its validity; nothing else changes |
| Registration.RegisterPage.SetUsername | frontend/src/pages/RegisterPage.tsx:68 | typing the username changes only it |
| Registration.RegisterPage.SetEmail | frontend/src/pages/RegisterPage.tsx:74 | typing the email changes only it |
| Registration.RegisterPage.SetPassword2 | frontend/src/pages/RegisterPage.tsx:82 | typing the confirmation changes only it |
| Registration.RegisterPage.HandleSubmit | frontend/src/pages/RegisterPage.tsx:28-55 | the four fields are sent as typed; success navigates to /login with the message, failure shows the feedback; loading ends false |
| Registration.RegisterPage.ClickSubmit | frontend/src/pages/RegisterPage.tsx:74-92 | a request leaves iff the button is enabled, every required field is filled and the browser finds the email well-formed; it then carries the four fields as typed, passes validate once trimmed with non-blank passwords and a strong password, and the page ends as handleSubmit leaves it (login navigation on success, the feedback on failure, not loading); otherwise nothing changes |
| ReviewForms.LitStarsIsMin | frontend/src/features/reviews/components/ReviewForm.tsx:47-49 | min(rating, n) of the first n stars are lit |
| ReviewForms.LitStarsShowRating | frontend/src/features/reviews/components/ReviewForm.tsx:47-49 | a rating of at most 5 lights that many stars, lit ones first |
| ReviewForms.FailureMessage | frontend/src/features/reviews/components/ReviewForm.tsx:34 | the server's non-empty detail, else the fixed fallback |
| ReviewForms.FormRequestValidation | frontend/src/features/reviews/components/ReviewForm.tsx:27 | a form request with a star rating is accepted by the server iff its text is not blank |
| ReviewForms.ReviewForm.constructor | frontend/src/features/reviews/components/ReviewForm.tsx:12-16 | empty text, rating 0, no spoiler, no error, not loading |
| ReviewForms.ReviewForm.ClickStar | frontend/src/features/reviews/components/ReviewForm.tsx:48 | clicking star i sets the rating to i + 1 and nothing else |
| ReviewForms.ReviewForm.SetTexto | frontend/src/features/reviews/components/ReviewForm.tsx:58 | typing changes only the text |
| ReviewForms.ReviewForm.SetSpoiler | frontend/src/features/reviews/components/ReviewForm.tsx:69 | the checkbox changes only the spoiler flag |
| ReviewForms.ReviewForm.HandleSubmit | frontend/src/features/reviews/components/ReviewForm.tsx:18-38 | rating 0 sends nothing and sets the error; otherwise the rating sent is 1..5, success clears the form, failure keeps it and shows the message |
| ReviewForms.StarThenSubmit | frontend/src/features/reviews/components/ReviewForm.tsx:18-38 | choosing star 3 and submitting sends rating 4 and clears the form |
| ReviewForms.SubmitWithoutStar | frontend/src/features/reviews/components/ReviewForm.tsx:20-23 | submitting before choosing a star sends nothing and asks for a rating |
| MovieDetail.HasReviewByEdgeCases | frontend/src/pages/MovieDetailPage.tsx:78 | with nobody logged in, or no reviews, userHasReviewed is false |
| MovieDetail.HasReviewByPrepend | frontend/src/pages/MovieDetailPage.tsx:74-78 | after prepending, userHasReviewed holds iff the new review is the viewer's or it held before |
| MovieDetail.OptimisticFlipMatchesServer | frontend/src/pages/MovieDetailPage.tsx:50-60 | the flipped flag equals the pair's membership after the server's toggle |
| MovieDetail.MovieDetailPage.constructor | frontend/src/pages/MovieDetailPage.tsx:12-19 | nothing loaded, both flags false, loading, the session copied from the store |
| MovieDetail.MovieDetailPage.FetchMovieData | frontend/src/pages/MovieDetailPage.tsx:21-44 | no slug does nothing; status is requested iff the movie loaded and the viewer is authenticated; errors show their message; loading ends false |
| MovieDetail.MovieDetailPage.StartToggleWatchlist | frontend/src/pages/MovieDetailPage.tsx:50-53 | the watchlist flag is flipped and its old value remembered; is_favorite is untouched |
| MovieDetail.MovieDetailPage.SettleToggleWatchlist | frontend/src/pages/MovieDetailPage.tsx:54-59 | on failure the remembered watchlist flag is restored |
| MovieDetail.MovieDetailPage.ToggleWatchlist | frontend/src/pages/MovieDetailPage.tsx:50-60 | in_watchlist ends flipped on success and unchanged on failure; is_favorite never changes |
| MovieDetail.MovieDetailPage.StartToggleFavorite | frontend/src/pages/MovieDetailPage.tsx:62-65 | the favourite flag is flipped and its old value remembered; in_watchlist is untouched |
| MovieDetail.MovieDetailPage.SettleToggleFavorite | frontend/src/pages/MovieDetailPage.tsx:66-71 | on failure the remembered favourite flag is restored |
| MovieDetail.MovieDetailPage.ToggleFavorite | frontend/src/pages/MovieDetailPage.tsx:62-72 | is_favorite ends flipped on success and unchanged on failure; in_watchlist never changes |
| MovieDetail.MovieDetailPage.HandleReviewSubmit | frontend/src/pages/MovieDetailPage.tsx:74-76 | the review is prepended, the rest keep their order; one's own review replaces the form by the notice |
| MovieDetail.FormOrNotice | frontend/src/pages/MovieDetailPage.tsx:143-152 | form and notice never show together, and an authenticated viewer sees exactly one |
| Scenarios.ExpectedMeans | backend/core/tests.py:71-93 | the means of [10], [10, 5] and [10, 8] are 10.0, 7.5 and 9.0 |
| Scenarios.TwoUsers | backend/core/tests.py:37-39 | create_user makes user_a and user_b under ids 0 and 1 in an empty store |
| Scenarios.TwoUsersOneFilme | backend/core/tests.py:36-48 | the fixture: two users made by create_user and one movie at 0.0/0 with no ratings |
| Scenarios.AfterFirstReview | backend/core/tests.py:62-72 | creating a rating of 10 gives 10.0 over 1 review |
| Scenarios.AfterSecondReview | backend/core/tests.py:74-84 | adding a 5 gives 7.5 over 2 reviews |
| Scenarios.AfterUpdate | backend/core/tests.py:86-93 | saving that review with 8 gives 9.0 over 2 reviews |
| Scenarios.RatingAggregateScenario | backend/core/tests.py:95-101 | deleting it brings the movie back to 10.0 over 1 review |
| Scenarios.MovedReviewLeavesStaleCount | backend/core/signals.py:63-78 | a review moved from movie 0 to movie 1 leaves movie 0 counting 1 review while it has none |
| Scenarios.MovedAndResynced | backend/core/signals.py:63-78 | the same move through the corrected save leaves both movies in sync |
| Scenarios.MovedReviewResynced | backend/core/signals.py:63-78 | after the corrected save, movie 0 counts 0 reviews and movie 1 counts 1 |

## Left out

- Floating point: `media_rating` is a Python float; the model uses exact `real`, so 7.5 and 9.0 are exact and rounding is not modelled.
- Registration.RegisterPage.ClickSubmit: the browser's rules for a well-formed address are not spelled out; its verdict on the current email is the parameter `emailWellFormed`.
- Serializers.ValidateRegistration: the username, password and confirmation are always present in the model's input, as the client always sends all four fields, so the "required" error of an absent key is not modelled. The rules of UnicodeUsernameValidator, of the email address check and of validate_password are not spelled out: their verdicts on the trimmed values are the parameter `checks`.
- Password hashing (`create_user` stores a hash): the model stores the password as given.
- Catalog.CatalogStore.Register: the NFKC normalisation of the username is the parameter `normalizeUsername`, not spelled out, and `NormalizeEmail` lower-cases only ASCII capitals, where Python's str.lower() maps every Unicode capital.
- Collation: the title order is code-point order on strings, not the database's collation.
- String lengths: JavaScript measures length in UTF-16 code units and Python in code points; the model counts Dafny characters.
- Concurrency, transactions and isolation levels: the model is sequential.
- Signal dispatch: Django's signal registration (`apps.py`) is replaced by a direct call of the hook after each review write.
- `Command.handle` of the import command: HTTP, HTML parsing, sleeps and the float parsing of IMDb ratings. Its direct `media_rating` assignment is why the aggregate is a postcondition of review writes, not an invariant of the store.
- `FilmeWriteSerializer` updates of a movie: these may set any field, including the aggregate. Movie creation is modelled by `CreateFilme`.
- `WatchlistViewSet`/`FavoritoViewSet` create, retrieve, update and destroy: only `get_queryset` is modelled.
- `UserMeView`, the JWT views and `authentication.py`: token handling is outside the model. An unauthenticated request to an `IsAuthenticated` action answers 401.
- Catalog.CatalogStore.SaveReviewRecord: requires the review to exist. `DeleteReviewRecord` requires it too, as the ORM only saves or deletes a loaded instance. The viewset paths (`UpdateReview`, `DestroyReview`) handle a missing id with 404.
- Serializers.Strip: removes ASCII whitespace and the ASCII separators U+001C to U+001F only, not every Unicode space that `str.strip` removes.
- Imdb.HighResPosterUrlIsRewrite: the closed form and the idempotence lemmas hold for newline-free URLs. `re.sub` is still modelled for every input, and there `.` stops at a newline.
- `slugify` is a function parameter, and timestamps are a `now` parameter written to `updated_at`; `created_at` is represented by id order.
- Asynchronous requests in the client are parameters standing for their outcome. Timing and interleaving of concurrent requests are not modelled.
- MovieDetail.MovieDetailPage.FetchMovieData: with no slug the page stays in its loading state, as the code does.
- `persist` middleware of the user store: the JSON text under "user-storage" is represented by the state it encodes, so serialisation, the version field and a malformed stored text are not modelled; rehydration is synchronous, as it is over `localStorage`.
- ReviewForms.ReviewForm.ClickStar: requires a star index below 5, as only five buttons exist.
- `list_reviews` is modelled as the function `ReviewsNewestFirst`; its serialisation is not.
- JSX rendering, CSS, routing and configuration files are not part of this model.

## Findings

| source | as written | input that shows it | evidently intended | confidence | as-written member | corrected member |
|---|---|---|---|---|---|---|
| backend/core/signals.py:63-78 | post_save recomputes only the movie the review now belongs to | a review of movie 0 saved with its movie changed to 1 (the Review admin form, backend/core/admin.py:83-86, allows it) leaves movie 0 with reviews_count 1 and no reviews | both the movie the review left and the one it joined are recomputed | not executed; medium | Scenarios.MovedReviewLeavesStaleCount (through Catalog.CatalogStore.SaveReviewRecord) | Catalog.CatalogStore.SaveReviewRecordResyncing (shown by Scenarios.MovedReviewResynced) |
