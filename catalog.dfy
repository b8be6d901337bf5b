/**
 * The catalogue store: the Filme, Review, User, Watchlist and Favorito
 * tables, the rating aggregate hook of backend/core/signals.py (called
 * directly after every review write, where Django sends post_save and
 * post_delete), the on_delete=CASCADE rules of the models, and the
 * mutating and reading actions of backend/core/views.py.
 */
module Catalog {
  import opened Wrappers
  import opened Models
  import opened Lists
  import opened Aggregates
  import opened Serializers

  /** The JSON body of a response. */
  datatype Body =
    | StatusFlags(in_watchlist: bool, is_favorite: bool)
    | WatchlistFlag(in_watchlist: bool)
    | FavoriteFlag(is_favorite: bool)
    | Detail(message: string)
    | FieldErrors(keys: ErrorKeys)
    | ReviewBody(id: ReviewId, review: Review)
    | UserBody(id: UserId, username: string, email: string)
    | NoContent

  datatype Response = Response(code: nat, body: Body)

  const HTTP_200_OK: nat := 200
  const HTTP_201_CREATED: nat := 201
  const HTTP_204_NO_CONTENT: nat := 204
  const HTTP_400_BAD_REQUEST: nat := 400
  const HTTP_401_UNAUTHORIZED: nat := 401
  const HTTP_404_NOT_FOUND: nat := 404
  const HTTP_500_SERVER_ERROR: nat := 500

  const AlreadyReviewed: string := "Você já fez uma review para este filme."
  const NotAuthenticated: Response := Response(HTTP_401_UNAUTHORIZED, Detail("Authentication credentials were not provided."))
  const NotFound: Response := Response(HTTP_404_NOT_FOUND, Detail("Not found."))
  const FilmeMissing: Response := Response(HTTP_500_SERVER_ERROR, Detail("NOT NULL constraint failed: core_review.filme_id"))
  const UsernameCollision: Response := Response(HTTP_500_SERVER_ERROR, Detail("UNIQUE constraint failed: auth_user.username"))

  /** A write the database refuses (unique or foreign-key constraint). */
  datatype StoreError = IntegrityError

  /** unique_together ('filme', 'autor') on Review. */
  predicate OneReviewPerAuthor(reviews: map<ReviewId, Review>)
  {
    forall a, b ::
      a in reviews && b in reviews && reviews[a].filme == reviews[b].filme && reviews[a].autor == reviews[b].autor
      ==> a == b
  }

  /** unique=True on Filme.slug. */
  predicate UniqueSlugs(movies: map<FilmeId, Filme>)
  {
    forall f, g :: f in movies && g in movies && movies[f].slug == movies[g].slug ==> f == g
  }

  /** unique=True on Filme.imdb_id, which may be null any number of times. */
  predicate UniqueImdbIds(movies: map<FilmeId, Filme>)
  {
    forall f, g ::
      f in movies && g in movies && movies[f].imdb_id.Some? && movies[f].imdb_id == movies[g].imdb_id
      ==> f == g
  }

  predicate UniqueUsernames(users: map<UserId, User>)
  {
    forall u, v :: u in users && v in users && users[u].username == users[v].username ==> u == v
  }

  /** Another stored review already pairs r's movie with r's author. */
  predicate Clashes(reviews: map<ReviewId, Review>, id: ReviewId, r: Review)
  {
    exists other :: other in reviews && other != id && reviews[other].filme == r.filme && reviews[other].autor == r.autor
  }

  lemma ReplaceKeepsOneReview(reviews: map<ReviewId, Review>, id: ReviewId, r: Review)
    requires OneReviewPerAuthor(reviews) && !Clashes(reviews, id, r)
    ensures OneReviewPerAuthor(reviews[id := r])
  {
  }

  /** Movie g carries the mean and the count of its reviews with ids below n. */
  ghost predicate SyncedIn(movies: map<FilmeId, Filme>, reviews: map<ReviewId, Review>, n: nat, g: FilmeId)
  {
    g in movies && movies[g].media_rating == Mean(RatingsOf(reviews, g, n))
    && movies[g].reviews_count == |RatingsOf(reviews, g, n)|
  }

  /** Rewriting review id leaves every movie other than its old and new one as it was. */
  lemma ReplaceKeepsOthersSynced(movies: map<FilmeId, Filme>, reviews: map<ReviewId, Review>, n: nat, id: ReviewId, r: Review)
    requires id in reviews
    ensures forall g ::
      g != r.filme && g != reviews[id].filme && SyncedIn(movies, reviews, n, g)
      ==> SyncedIn(movies, reviews[id := r], n, g)
  {
    forall g | g != r.filme && g != reviews[id].filme
      ensures RatingsOf(reviews[id := r], g, n) == RatingsOf(reviews, g, n)
    {
      RatingsFrame(reviews[id := r], reviews, g, n);
    }
  }

  /**
   * Inserting a review under the next id appends its rating to its movie
   * and leaves every other movie as it was.
   */
  lemma InsertKeepsOthersSynced(movies: map<FilmeId, Filme>, reviews: map<ReviewId, Review>, n: nat, r: Review)
    requires forall id :: id in reviews ==> id < n
    ensures RatingsOf(reviews[n := r], r.filme, n + 1) == RatingsOf(reviews, r.filme, n) + [r.rating]
    ensures forall g ::
      g != r.filme && SyncedIn(movies, reviews, n, g)
      ==> SyncedIn(movies, reviews[n := r], n + 1, g)
  {
    RatingsAfterInsert(reviews, r.filme, n, r);
    forall g | g != r.filme
      ensures RatingsOf(reviews[n := r], g, n + 1) == RatingsOf(reviews, g, n)
    {
      RatingsAfterInsert(reviews, g, n, r);
    }
  }

  /**
   * Deleting review id takes one rating off its movie and leaves every
   * other movie as it was.
   */
  lemma DeleteKeepsOthersSynced(movies: map<FilmeId, Filme>, reviews: map<ReviewId, Review>, n: nat, id: ReviewId)
    requires id in reviews && id < n
    ensures |RatingsOf(reviews - {id}, reviews[id].filme, n)| == |RatingsOf(reviews, reviews[id].filme, n)| - 1
    ensures forall g ::
      g != reviews[id].filme && SyncedIn(movies, reviews, n, g)
      ==> SyncedIn(movies, reviews - {id}, n, g)
  {
    var f := reviews[id].filme;
    CountIsNumberOfReviews(reviews, f, n);
    CountIsNumberOfReviews(reviews - {id}, f, n);
    assert ReviewIdsOf(reviews - {id}, f, n) == ReviewIdsOf(reviews, f, n) - {id};
    forall g | g != f
      ensures RatingsOf(reviews - {id}, g, n) == RatingsOf(reviews, g, n)
    {
      RatingsFrame(reviews - {id}, reviews, g, n);
    }
  }

  /**
   * A cascade that removes reviews only of movies in `touched` leaves every
   * other movie as it was.
   */
  lemma CascadeKeepsOthersSynced(movies: map<FilmeId, Filme>, reviews: map<ReviewId, Review>, n: nat,
                                 d: Deleted, touched: set<FilmeId>)
    requires forall id :: id in reviews && ReviewReferences(reviews[id], d) ==> reviews[id].filme in touched
    ensures forall g ::
      g !in touched && SyncedIn(movies, reviews, n, g)
      ==> SyncedIn(movies, ReviewsWithout(reviews, d), n, g)
  {
    forall g | g !in touched
      ensures RatingsOf(ReviewsWithout(reviews, d), g, n) == RatingsOf(reviews, g, n)
    {
      RatingsFrame(ReviewsWithout(reviews, d), reviews, g, n);
    }
  }

  /** The movie table after one aggregate recompute of each movie in fs. */
  function RecomputeAllOn(movies: map<FilmeId, Filme>, reviews: map<ReviewId, Review>, n: nat, fs: set<FilmeId>, now: nat)
    : (r: map<FilmeId, Filme>)
    ensures r.Keys == movies.Keys
    ensures forall g :: g in movies && g in fs ==> SyncedIn(r, reviews, n, g)
    ensures forall g :: g in movies && g !in fs ==> r[g] == movies[g]
  {
    map g | g in movies :: if g in fs then Synced(movies[g], RatingsOf(reviews, g, n), now) else movies[g]
  }

  /** Recomputing one more movie extends the set recomputed. */
  lemma RecomputeAllStep(movies: map<FilmeId, Filme>, reviews: map<ReviewId, Review>, n: nat,
                         fs: set<FilmeId>, g: FilmeId, now: nat)
    ensures RecomputeOn(RecomputeAllOn(movies, reviews, n, fs, now), reviews, n, g, now)
         == RecomputeAllOn(movies, reviews, n, fs + {g}, now)
  {
  }

  predicate ReviewReferences(r: Review, d: Deleted)
  {
    match d
    case DeletedUser(u) => r.autor == u
    case DeletedFilme(f) => r.filme == f
  }

  /** The review table after a cascade delete of d. */
  function ReviewsWithout(reviews: map<ReviewId, Review>, d: Deleted): (r: map<ReviewId, Review>)
    ensures forall id :: id in r <==> id in reviews && !ReviewReferences(reviews[id], d)
    ensures forall id :: id in r ==> r[id] == reviews[id]
  {
    map id | id in reviews && !ReviewReferences(reviews[id], d) :: reviews[id]
  }

  /** A movie that no review references aggregates no rating. */
  lemma NoReviewsNoRatings(reviews: map<ReviewId, Review>, f: FilmeId, n: nat)
    requires forall id :: id in reviews ==> reviews[id].filme != f
    ensures RatingsOf(reviews, f, n) == []
  {
    RatingsFrame(reviews, map[], f, n);
    EmptyTableNoRatings(f, n);
  }

  lemma {:induction false} EmptyTableNoRatings(f: FilmeId, n: nat)
    ensures RatingsOf(map[], f, n) == []
  {
    if n > 0 {
      EmptyTableNoRatings(f, n - 1);
    }
  }

  class CatalogStore {
    var movies: map<FilmeId, Filme>
    var reviews: map<ReviewId, Review>
    var users: map<UserId, User>
    /** Watchlist rows, newest first. */
    var watchlist: seq<ListEntry>
    /** Favorito rows, newest first. */
    var favorites: seq<ListEntry>
    /** The next values of the auto-increment primary keys. */
    var nextFilmeId: nat
    var nextReviewId: nat
    var nextUserId: nat

    /** The database constraints. */
    ghost predicate Valid()
      reads this
    {
      KeysBelowCounters() && ReviewsValid() && UniqueKeys() && ListValid(watchlist) && ListValid(favorites)
    }

    /** Every primary key was handed out by its auto-increment counter. */
    ghost predicate KeysBelowCounters()
      reads this
    {
      && (forall f :: f in movies ==> f < nextFilmeId)
      && (forall id :: id in reviews ==> id < nextReviewId)
      && (forall u :: u in users ==> u < nextUserId)
    }

    /** The foreign keys of every review resolve, and unique_together holds. */
    ghost predicate ReviewsValid()
      reads this
    {
      && (forall id :: id in reviews ==> reviews[id].filme in movies && reviews[id].autor in users)
      && OneReviewPerAuthor(reviews)
    }

    /** The unique columns of Filme and User. */
    ghost predicate UniqueKeys()
      reads this
    {
      UniqueSlugs(movies) && UniqueImdbIds(movies) && UniqueUsernames(users)
    }

    ghost predicate ListValid(s: seq<ListEntry>)
      reads this
    {
      NoDuplicates(s) && forall e :: e in s ==> e.utilizador in users && e.filme in movies
    }

    constructor ()
      ensures Valid()
      ensures movies == map[] && reviews == map[] && users == map[]
      ensures watchlist == [] && favorites == []
      ensures nextFilmeId == 0 && nextReviewId == 0 && nextUserId == 0
    {
      movies, reviews, users := map[], map[], map[];
      watchlist, favorites := [], [];
      nextFilmeId, nextReviewId, nextUserId := 0, 0, 0;
    }

    /** No table changed. */
    twostate predicate Unchanged()
      reads this
    {
      && movies == old(movies) && reviews == old(reviews) && users == old(users)
      && watchlist == old(watchlist) && favorites == old(favorites)
      && nextFilmeId == old(nextFilmeId) && nextReviewId == old(nextReviewId) && nextUserId == old(nextUserId)
    }

    /** Users and list tables did not change. */
    twostate predicate UsersAndListsKept()
      reads this
    {
      && users == old(users) && watchlist == old(watchlist) && favorites == old(favorites)
      && nextFilmeId == old(nextFilmeId) && nextUserId == old(nextUserId)
    }

    /** The ratings `Review.objects.filter(filme_id=f)` aggregates over. */
    function Ratings(f: FilmeId): seq<nat>
      reads this
    {
      RatingsOf(reviews, f, nextReviewId)
    }

    /** Movie f carries the mean and the count of its current reviews. */
    ghost predicate InSync(f: FilmeId)
      reads this
    {
      SyncedIn(movies, reviews, nextReviewId, f)
    }

    ghost predicate AllInSync()
      reads this
    {
      forall f :: f in movies ==> InSync(f)
    }

    /** The user already has a review for the movie. */
    predicate HasReview(f: FilmeId, u: UserId)
      reads this
    {
      exists id :: id in reviews && reviews[id].filme == f && reviews[id].autor == u
    }

    /** The movie a detail route's slug names, if any. */
    ghost function FilmeWithSlug(slug: string): (r: Option<FilmeId>)
      reads this
      ensures r.Some? ==> r.value in movies && movies[r.value].slug == slug
      ensures r.None? ==> forall f :: f in movies ==> movies[f].slug != slug
    {
      if exists f :: f in movies && movies[f].slug == slug then
        var f :| f in movies && movies[f].slug == slug; Some(f)
      else None
    }

    function FilmsReviewedBy(u: UserId): set<FilmeId>
      reads this
    {
      set id | id in reviews && reviews[id].autor == u :: reviews[id].filme
    }

    function Usernames(): set<string>
      reads this
    {
      set u | u in users :: users[u].username
    }

    // -------------------------------------------------------------------
    // The aggregate hook (backend/core/signals.py)
    // -------------------------------------------------------------------

    /**
     * _atualizar_agregados_filme: reload movie f, recompute mean and count
     * of its reviews, write back media_rating, reviews_count and updated_at.
     * A movie that no longer exists is a no-op.
     */
    method Recompute(f: FilmeId, now: nat)
      requires Valid()
      modifies this
      ensures Valid() && UsersAndListsKept()
      ensures reviews == old(reviews) && nextReviewId == old(nextReviewId)
      ensures movies == RecomputeOn(old(movies), reviews, nextReviewId, f, now)
      ensures movies.Keys == old(movies).Keys
      ensures f !in old(movies) ==> Unchanged()
      ensures f in movies ==> InSync(f) && movies[f].updated_at == now
      ensures forall g :: g != f && old(InSync(g)) ==> InSync(g)
      ensures old(AllInSync()) ==> AllInSync()
    {
      if f in movies {
        var rs := Ratings(f);
        movies := movies[f := Synced(movies[f], rs, now)];
      }
    }

    /** review_post_save: recompute the aggregate of the saved review's movie. */
    method ReviewPostSave(instance: Review, now: nat)
      requires Valid()
      modifies this
      ensures Valid() && UsersAndListsKept()
      ensures reviews == old(reviews) && nextReviewId == old(nextReviewId)
      ensures movies == RecomputeOn(old(movies), reviews, nextReviewId, instance.filme, now)
      ensures instance.filme in movies ==> InSync(instance.filme)
      ensures forall g :: g != instance.filme && old(InSync(g)) ==> InSync(g)
      ensures old(AllInSync()) ==> AllInSync()
    {
      Recompute(instance.filme, now);
    }

    /** review_post_delete: recompute the aggregate of the deleted review's movie. */
    method ReviewPostDelete(instance: Review, now: nat)
      requires Valid()
      modifies this
      ensures Valid() && UsersAndListsKept()
      ensures reviews == old(reviews) && nextReviewId == old(nextReviewId)
      ensures movies == RecomputeOn(old(movies), reviews, nextReviewId, instance.filme, now)
      ensures instance.filme in movies ==> InSync(instance.filme)
      ensures forall g :: g != instance.filme && old(InSync(g)) ==> InSync(g)
      ensures old(AllInSync()) ==> AllInSync()
    {
      Recompute(instance.filme, now);
    }

    // -------------------------------------------------------------------
    // Review writes at the ORM level, each followed by its hook
    // -------------------------------------------------------------------

    /**
     * Review.objects.create(...): insert under the next id, then post_save.
     * No field validator runs here, so any rating is stored; the database
     * refuses a missing movie or author and a second review of the same
     * movie by the same author.
     */
    method CreateReviewRecord(r: Review, now: nat) returns (res: Result<ReviewId, StoreError>)
      requires Valid()
      modifies this
      ensures Valid() && UsersAndListsKept()
      ensures res.Err? <==> r.filme !in old(movies) || r.autor !in old(users) || old(HasReview(r.filme, r.autor))
      ensures res.Err? ==> Unchanged()
      ensures res.Ok? ==> && res.value == old(nextReviewId)
                          && reviews == old(reviews)[res.value := r]
                          && nextReviewId == old(nextReviewId) + 1
                          && movies == RecomputeOn(old(movies), reviews, nextReviewId, r.filme, now)
                          && Ratings(r.filme) == old(Ratings(r.filme)) + [r.rating]
                          && InSync(r.filme)
      ensures old(AllInSync()) ==> AllInSync()
    {
      if r.filme !in movies || r.autor !in users || HasReview(r.filme, r.autor) {
        return Err(IntegrityError);
      }
      var id := InsertReviewRow(r);
      ReviewPostSave(r, now);
      res := Ok(id);
    }

    /** The INSERT of a new review row under the next id, before its hook runs. */
    method InsertReviewRow(r: Review) returns (id: ReviewId)
      requires Valid()
      requires r.filme in movies && r.autor in users && !HasReview(r.filme, r.autor)
      modifies this
      ensures Valid() && UsersAndListsKept() && movies == old(movies)
      ensures id == old(nextReviewId) && nextReviewId == id + 1
      ensures reviews == old(reviews)[id := r]
      ensures Ratings(r.filme) == old(Ratings(r.filme)) + [r.rating]
      ensures forall g :: g != r.filme && old(InSync(g)) ==> InSync(g)
    {
      id := nextReviewId;
      InsertKeepsOthersSynced(movies, reviews, id, r);
      reviews := reviews[id := r];
      nextReviewId := id + 1;
    }

    /**
     * review.save() on a stored review: the row is rewritten, then
     * post_save recomputes the movie the review NOW belongs to. When the
     * save moves the review to another movie, the movie it left is not
     * recomputed (see SaveReviewRecordResyncing).
     */
    method SaveReviewRecord(id: ReviewId, r: Review, now: nat) returns (res: Result<ReviewId, StoreError>)
      requires Valid()
      requires id in reviews
      modifies this
      ensures Valid() && UsersAndListsKept()
      ensures nextReviewId == old(nextReviewId)
      ensures res.Err? <==> (r.filme !in old(movies) || r.autor !in old(users) || Clashes(old(reviews), id, r))
      ensures movies.Keys == old(movies).Keys
      ensures res.Err? ==> Unchanged()
      ensures res.Ok? ==> && res.value == id
                          && reviews == old(reviews)[id := r]
                          && movies == RecomputeOn(old(movies), reviews, nextReviewId, r.filme, now)
                          && InSync(r.filme)
      ensures forall g :: g != r.filme && g != old(reviews)[id].filme && old(InSync(g)) ==> InSync(g)
      ensures old(AllInSync()) && r.filme == old(reviews)[id].filme ==> AllInSync()
    {
      if r.filme !in movies || r.autor !in users || Clashes(reviews, id, r) {
        return Err(IntegrityError);
      }
      ReplaceKeepsOneReview(reviews, id, r);
      ReplaceKeepsOthersSynced(movies, reviews, nextReviewId, id, r);
      reviews := reviews[id := r];
      ReviewPostSave(r, now);
      res := Ok(id);
    }

    /**
     * The same save followed, when the review changed movie, by a
     * recompute of the movie it left as well as the one it now belongs
     * to; this keeps every aggregate in sync whatever the save changes.
     */
    method SaveReviewRecordResyncing(id: ReviewId, r: Review, now: nat) returns (res: Result<ReviewId, StoreError>)
      requires Valid()
      requires id in reviews
      modifies this
      ensures Valid() && UsersAndListsKept()
      ensures nextReviewId == old(nextReviewId)
      ensures res.Err? <==> (r.filme !in old(movies) || r.autor !in old(users) || Clashes(old(reviews), id, r))
      ensures movies.Keys == old(movies).Keys
      ensures res.Err? ==> Unchanged()
      ensures res.Ok? ==> && res.value == id
                          && reviews == old(reviews)[id := r]
                          && InSync(r.filme)
                          && (old(reviews)[id].filme in movies ==> InSync(old(reviews)[id].filme))
      ensures res.Ok? && r.filme == old(reviews)[id].filme ==>
        movies == RecomputeOn(old(movies), reviews, nextReviewId, r.filme, now)
      ensures old(AllInSync()) ==> AllInSync()
    {
      var left := reviews[id].filme;
      res := SaveReviewRecord(id, r, now);
      if res.Ok? && left != r.filme {
        Recompute(left, now);
      }
    }

    /**
     * review.delete(): the row goes, then post_delete recomputes the
     * movie of the deleted instance.
     */
    method DeleteReviewRecord(id: ReviewId, now: nat)
      requires Valid()
      requires id in reviews
      modifies this
      ensures Valid() && UsersAndListsKept()
      ensures nextReviewId == old(nextReviewId)
      ensures reviews == old(reviews) - {id}
      ensures movies == RecomputeOn(old(movies), reviews, nextReviewId, old(reviews)[id].filme, now)
      ensures |Ratings(old(reviews)[id].filme)| == |old(Ratings(reviews[id].filme))| - 1
      ensures InSync(old(reviews)[id].filme)
      ensures old(AllInSync()) ==> AllInSync()
    {
      var instance := reviews[id];
      DeleteKeepsOthersSynced(movies, reviews, nextReviewId, id);
      reviews := reviews - {id};
      ReviewPostDelete(instance, now);
    }

    // -------------------------------------------------------------------
    // Cascades (on_delete=CASCADE in review.py and listas.py)
    // -------------------------------------------------------------------

    /**
     * Deleting a movie deletes its reviews and every Watchlist and
     * Favorito row that references it. The post_delete recompute of the
     * cascaded reviews runs on a movie that is deleted with them, so it
     * leaves no trace.
     */
    method DeleteFilme(f: FilmeId)
      requires Valid()
      modifies this
      ensures Valid()
      ensures users == old(users) && nextReviewId == old(nextReviewId)
      ensures nextFilmeId == old(nextFilmeId) && nextUserId == old(nextUserId)
      ensures movies == old(movies) - {f}
      ensures reviews == ReviewsWithout(old(reviews), DeletedFilme(f))
      ensures watchlist == CascadeDrop(old(watchlist), DeletedFilme(f))
      ensures favorites == CascadeDrop(old(favorites), DeletedFilme(f))
      ensures forall id :: id in reviews ==> reviews[id].filme != f
      ensures old(AllInSync()) ==> AllInSync()
    {
      CascadeKeepsOthersSynced(movies, reviews, nextReviewId, DeletedFilme(f), {f});
      reviews := ReviewsWithout(reviews, DeletedFilme(f));
      movies := movies - {f};
      CascadeKeepsUnique(watchlist, DeletedFilme(f));
      CascadeKeepsUnique(favorites, DeletedFilme(f));
      watchlist := CascadeDrop(watchlist, DeletedFilme(f));
      favorites := CascadeDrop(favorites, DeletedFilme(f));
    }

    /**
     * Deleting a user deletes the user's reviews and list rows. Each
     * deleted review sends post_delete, so every movie the user had
     * reviewed is recomputed against the remaining reviews.
     */
    method DeleteUser(u: UserId, now: nat)
      requires Valid()
      modifies this
      ensures Valid()
      ensures users == old(users) - {u}
      ensures nextReviewId == old(nextReviewId) && nextFilmeId == old(nextFilmeId) && nextUserId == old(nextUserId)
      ensures reviews == ReviewsWithout(old(reviews), DeletedUser(u))
      ensures watchlist == CascadeDrop(old(watchlist), DeletedUser(u))
      ensures favorites == CascadeDrop(old(favorites), DeletedUser(u))
      ensures movies == RecomputeAllOn(old(movies), reviews, nextReviewId, old(FilmsReviewedBy(u)), now)
      ensures forall g :: g in old(FilmsReviewedBy(u)) ==> InSync(g)
      ensures old(AllInSync()) ==> AllInSync()
    {
      var touched := FilmsReviewedBy(u);
      DeleteUserRows(u);
      ghost var cascaded := movies;
      RecomputeEach(touched, now);
      forall g | g in movies && g !in touched && SyncedIn(cascaded, reviews, nextReviewId, g)
        ensures InSync(g)
      {
        assert movies[g] == cascaded[g];
      }
    }

    /**
     * The row deletions of a user delete, before any post_delete hook:
     * the user, the user's reviews and list rows. Only movies the user
     * had reviewed can lose their sync.
     */
    method DeleteUserRows(u: UserId)
      requires Valid()
      modifies this
      ensures Valid()
      ensures movies == old(movies) && users == old(users) - {u}
      ensures nextReviewId == old(nextReviewId) && nextFilmeId == old(nextFilmeId) && nextUserId == old(nextUserId)
      ensures reviews == ReviewsWithout(old(reviews), DeletedUser(u))
      ensures watchlist == CascadeDrop(old(watchlist), DeletedUser(u))
      ensures favorites == CascadeDrop(old(favorites), DeletedUser(u))
      ensures forall g :: g !in old(FilmsReviewedBy(u)) && old(InSync(g)) ==> InSync(g)
    {
      CascadeKeepsOthersSynced(movies, reviews, nextReviewId, DeletedUser(u), FilmsReviewedBy(u));
      reviews := ReviewsWithout(reviews, DeletedUser(u));
      users := users - {u};
      CascadeKeepsUnique(watchlist, DeletedUser(u));
      CascadeKeepsUnique(favorites, DeletedUser(u));
      watchlist := CascadeDrop(watchlist, DeletedUser(u));
      favorites := CascadeDrop(favorites, DeletedUser(u));
    }

    /** One post_delete recompute for each movie in fs. */
    method RecomputeEach(fs: set<FilmeId>, now: nat)
      requires Valid()
      modifies this
      ensures Valid() && UsersAndListsKept()
      ensures reviews == old(reviews) && nextReviewId == old(nextReviewId)
      ensures movies == RecomputeAllOn(old(movies), reviews, nextReviewId, fs, now)
    {
      var todo := fs;
      ghost var done: set<FilmeId> := {};
      assert RecomputeAllOn(movies, reviews, nextReviewId, {}, now) == movies;
      while todo != {}
        invariant Valid() && UsersAndListsKept()
        invariant reviews == old(reviews) && nextReviewId == old(nextReviewId)
        invariant done + todo == fs
        invariant movies == RecomputeAllOn(old(movies), reviews, nextReviewId, done, now)
        decreases todo
      {
        var g :| g in todo;
        RecomputeAllStep(old(movies), reviews, nextReviewId, done, g, now);
        Recompute(g, now);
        todo, done := todo - {g}, done + {g};
      }
    }

    // -------------------------------------------------------------------
    // FilmeViewSet (backend/core/views.py)
    // -------------------------------------------------------------------

    /** get_object: the movie whose slug the route names. */
    method GetObject(slug: string) returns (found: Option<FilmeId>)
      requires Valid()
      ensures found.Some? ==> found.value in movies && movies[found.value].slug == slug
      ensures found.None? <==> forall f :: f in movies ==> movies[f].slug != slug
      ensures found == FilmeWithSlug(slug)
    {
      if exists f :: f in movies && movies[f].slug == slug {
        var f :| f in movies && movies[f].slug == slug;
        found := Some(f);
      } else {
        found := None;
      }
    }

    /**
     * status: both flags false for an anonymous user (whatever the slug);
     * otherwise 404 for an unknown slug, or the membership of the pair in
     * each table.
     */
    method Status(requester: Option<UserId>, slug: string) returns (resp: Response)
      requires Valid()
      ensures requester.None? ==> resp == Response(HTTP_200_OK, StatusFlags(false, false))
      ensures requester.Some? && FilmeWithSlug(slug).None? ==> resp == NotFound
      ensures requester.Some? && FilmeWithSlug(slug).Some? ==>
        var e := ListEntry(requester.value, FilmeWithSlug(slug).value);
        resp == Response(HTTP_200_OK, StatusFlags(e in watchlist, e in favorites))
    {
      if requester.None? {
        return Response(HTTP_200_OK, StatusFlags(false, false));
      }
      var found := GetObject(slug);
      if found.None? {
        return NotFound;
      }
      var e := ListEntry(requester.value, found.value);
      resp := Response(HTTP_200_OK, StatusFlags(e in watchlist, e in favorites));
    }

    /**
     * toggle_watchlist: an absent (user, movie) pair is inserted (201,
     * in_watchlist true), a present one deleted (200, in_watchlist false).
     */
    method ToggleWatchlist(requester: Option<UserId>, slug: string) returns (resp: Response)
      requires Valid()
      requires requester.Some? ==> requester.value in users
      modifies this
      ensures Valid()
      ensures movies == old(movies) && reviews == old(reviews) && users == old(users) && favorites == old(favorites)
      ensures nextFilmeId == old(nextFilmeId) && nextReviewId == old(nextReviewId) && nextUserId == old(nextUserId)
      ensures requester.None? ==> resp == NotAuthenticated && watchlist == old(watchlist)
      ensures requester.Some? && FilmeWithSlug(slug).None? ==> resp == NotFound && watchlist == old(watchlist)
      ensures requester.Some? && FilmeWithSlug(slug).Some? ==>
        var e := ListEntry(requester.value, FilmeWithSlug(slug).value);
        && watchlist == Toggle(old(watchlist), e)
        && resp == if e in old(watchlist) then Response(HTTP_200_OK, WatchlistFlag(false))
                   else Response(HTTP_201_CREATED, WatchlistFlag(true))
    {
      if requester.None? {
        return NotAuthenticated;
      }
      var found := GetObject(slug);
      if found.None? {
        return NotFound;
      }
      var e := ListEntry(requester.value, found.value);
      var created := e !in watchlist;
      ToggleKeepsUnique(watchlist, e);
      watchlist := Toggle(watchlist, e);
      if !created {
        return Response(HTTP_200_OK, WatchlistFlag(false));
      }
      resp := Response(HTTP_201_CREATED, WatchlistFlag(true));
    }

    /** toggle_favorite: the same rules on the Favorito table only. */
    method ToggleFavorite(requester: Option<UserId>, slug: string) returns (resp: Response)
      requires Valid()
      requires requester.Some? ==> requester.value in users
      modifies this
      ensures Valid()
      ensures movies == old(movies) && reviews == old(reviews) && users == old(users) && watchlist == old(watchlist)
      ensures nextFilmeId == old(nextFilmeId) && nextReviewId == old(nextReviewId) && nextUserId == old(nextUserId)
      ensures requester.None? ==> resp == NotAuthenticated && favorites == old(favorites)
      ensures requester.Some? && FilmeWithSlug(slug).None? ==> resp == NotFound && favorites == old(favorites)
      ensures requester.Some? && FilmeWithSlug(slug).Some? ==>
        var e := ListEntry(requester.value, FilmeWithSlug(slug).value);
        && favorites == Toggle(old(favorites), e)
        && resp == if e in old(favorites) then Response(HTTP_200_OK, FavoriteFlag(false))
                   else Response(HTTP_201_CREATED, FavoriteFlag(true))
    {
      if requester.None? {
        return NotAuthenticated;
      }
      var found := GetObject(slug);
      if found.None? {
        return NotFound;
      }
      var e := ListEntry(requester.value, found.value);
      var created := e !in favorites;
      ToggleKeepsUnique(favorites, e);
      favorites := Toggle(favorites, e);
      if !created {
        return Response(HTTP_200_OK, FavoriteFlag(false));
      }
      resp := Response(HTTP_201_CREATED, FavoriteFlag(true));
    }

    /**
     * create_review: one review per (movie, author). A second one is
     * refused with 400 before the payload is looked at; an invalid payload
     * is refused with its field errors; otherwise the review is stored with
     * the requester as author and the routed movie, and that movie's
     * aggregate is recomputed.
     */
    method CreateReview(requester: Option<UserId>, slug: string, payload: ReviewPayload, now: nat)
      returns (resp: Response)
      requires Valid()
      requires requester.Some? ==> requester.value in users
      modifies this
      ensures Valid() && UsersAndListsKept()
      ensures requester.None? ==> resp == NotAuthenticated && Unchanged()
      ensures requester.Some? && old(FilmeWithSlug(slug)).None? ==> resp == NotFound && Unchanged()
      ensures requester.Some? && old(FilmeWithSlug(slug)).Some? ==>
        var f, u := old(FilmeWithSlug(slug)).value, requester.value;
        var v := ValidateNewReview(payload);
        if old(HasReview(f, u)) then
          resp == Response(HTTP_400_BAD_REQUEST, Detail(AlreadyReviewed)) && Unchanged()
        else if v.Err? then
          resp == Response(HTTP_400_BAD_REQUEST, FieldErrors(v.error)) && Unchanged()
        else
          var r := Review(f, u, v.value.titulo, v.value.texto, v.value.rating, v.value.spoiler);
          && resp == Response(HTTP_201_CREATED, ReviewBody(old(nextReviewId), r))
          && reviews == old(reviews)[old(nextReviewId) := r]
          && nextReviewId == old(nextReviewId) + 1
          && movies == RecomputeOn(old(movies), reviews, nextReviewId, f, now)
          && Ratings(f) == old(Ratings(f)) + [r.rating]
          && InSync(f)
      ensures old(AllInSync()) ==> AllInSync()
    {
      if requester.None? {
        return NotAuthenticated;
      }
      var found := GetObject(slug);
      if found.None? {
        return NotFound;
      }
      var f, u := found.value, requester.value;
      if HasReview(f, u) {
        return Response(HTTP_400_BAD_REQUEST, Detail(AlreadyReviewed));
      }
      var validated := ValidateNewReview(payload);
      if validated.Err? {
        return Response(HTTP_400_BAD_REQUEST, FieldErrors(validated.error));
      }
      var v := validated.value;
      var r := Review(f, u, v.titulo, v.texto, v.rating, v.spoiler);
      var saved := CreateReviewRecord(r, now);
      resp := Response(HTTP_201_CREATED, ReviewBody(saved.value, r));
    }

    // -------------------------------------------------------------------
    // ReviewViewSet (permission IsAuthenticatedOrReadOnly)
    // -------------------------------------------------------------------

    /**
     * ReviewViewSet.create: perform_create saves with the requester as
     * author but nothing supplies the movie (ReviewSerializer has no
     * `filme` field), so a valid payload ends in the database's NOT NULL
     * error and nothing is stored.
     */
    method PerformCreate(requester: Option<UserId>, payload: ReviewPayload) returns (resp: Response)
      requires Valid()
      ensures requester.None? ==> resp == NotAuthenticated
      ensures requester.Some? && ValidateNewReview(payload).Err? ==>
        resp == Response(HTTP_400_BAD_REQUEST, FieldErrors(ValidateNewReview(payload).error))
      ensures requester.Some? && ValidateNewReview(payload).Ok? ==> resp == FilmeMissing
    {
      if requester.None? {
        return NotAuthenticated;
      }
      var validated := ValidateNewReview(payload);
      if validated.Err? {
        return Response(HTTP_400_BAD_REQUEST, FieldErrors(validated.error));
      }
      resp := FilmeMissing;
    }

    /**
     * ReviewViewSet.update / partial_update: any authenticated user may
     * rewrite any review (ownership is not checked). The movie and the
     * author cannot change through the serializer; the save recomputes the
     * review's movie.
     */
    method UpdateReview(requester: Option<UserId>, id: ReviewId, payload: ReviewPayload, partial: bool, now: nat)
      returns (resp: Response)
      requires Valid()
      modifies this
      ensures Valid() && UsersAndListsKept() && nextReviewId == old(nextReviewId)
      ensures requester.None? ==> resp == NotAuthenticated && Unchanged()
      ensures requester.Some? && id !in old(reviews) ==> resp == NotFound && Unchanged()
      ensures requester.Some? && id in old(reviews) && ValidateUpdate(old(reviews)[id], payload, partial).Err? ==>
        resp == Response(HTTP_400_BAD_REQUEST, FieldErrors(ValidateUpdate(old(reviews)[id], payload, partial).error))
        && Unchanged()
      ensures requester.Some? && id in old(reviews) && ValidateUpdate(old(reviews)[id], payload, partial).Ok? ==>
        var r := ValidateUpdate(old(reviews)[id], payload, partial).value;
        && resp == Response(HTTP_200_OK, ReviewBody(id, r))
        && reviews == old(reviews)[id := r]
        && movies == RecomputeOn(old(movies), reviews, nextReviewId, r.filme, now)
        && InSync(r.filme)
      ensures old(AllInSync()) ==> AllInSync()
    {
      if requester.None? {
        return NotAuthenticated;
      }
      if id !in reviews {
        return NotFound;
      }
      var validated := ValidateUpdate(reviews[id], payload, partial);
      if validated.Err? {
        return Response(HTTP_400_BAD_REQUEST, FieldErrors(validated.error));
      }
      var r := validated.value;
      assert !Clashes(reviews, id, r);
      var saved := SaveReviewRecord(id, r, now);
      resp := Response(HTTP_200_OK, ReviewBody(id, r));
    }

    /** ReviewViewSet.destroy: any authenticated user may delete any review; 204. */
    method DestroyReview(requester: Option<UserId>, id: ReviewId, now: nat) returns (resp: Response)
      requires Valid()
      modifies this
      ensures Valid() && UsersAndListsKept() && nextReviewId == old(nextReviewId)
      ensures requester.None? ==> resp == NotAuthenticated && Unchanged()
      ensures requester.Some? && id !in old(reviews) ==> resp == NotFound && Unchanged()
      ensures requester.Some? && id in old(reviews) ==>
        && resp == Response(HTTP_204_NO_CONTENT, NoContent)
        && reviews == old(reviews) - {id}
        && InSync(old(reviews)[id].filme)
      ensures old(AllInSync()) ==> AllInSync()
    {
      if requester.None? {
        return NotAuthenticated;
      }
      if id !in reviews {
        return NotFound;
      }
      DeleteReviewRecord(id, now);
      resp := Response(HTTP_204_NO_CONTENT, NoContent);
    }

    // -------------------------------------------------------------------
    // WatchlistViewSet / FavoritoViewSet listings
    // -------------------------------------------------------------------

    /** WatchlistViewSet.get_queryset: the requester's own rows only, newest first. */
    function WatchlistOf(u: UserId): (r: seq<FilmeId>)
      reads this
      ensures forall f :: f in r <==> ListEntry(u, f) in watchlist
    {
      EntriesOf(watchlist, u)
    }

    /** FavoritoViewSet.get_queryset: the requester's own rows only, newest first. */
    function FavoritesOf(u: UserId): (r: seq<FilmeId>)
      reads this
      ensures forall f :: f in r <==> ListEntry(u, f) in favorites
    {
      EntriesOf(favorites, u)
    }

    // -------------------------------------------------------------------
    // Registration and movie creation
    // -------------------------------------------------------------------

    /**
     * UserRegistrationView (CreateAPIView): validate, then create the
     * account through create_user (201), or report the error keys (400).
     * The serializer checks uniqueness on the trimmed username, but
     * create_user stores its NFKC form (`normalizeUsername`); when that form
     * is already taken the INSERT fails with an IntegrityError (500) and
     * nothing is stored. The passwords are write-only, so the 201 body
     * holds the id, the stored username and the stored email only.
     */
    method Register(input: RegistrationInput, checks: FieldChecks, normalizeUsername: string -> string)
      returns (resp: Response)
      requires Valid()
      modifies this
      ensures Valid()
      ensures movies == old(movies) && reviews == old(reviews) && watchlist == old(watchlist) && favorites == old(favorites)
      ensures nextFilmeId == old(nextFilmeId) && nextReviewId == old(nextReviewId)
      ensures ValidateRegistration(input, old(Usernames()), checks).Err? ==>
        resp == Response(HTTP_400_BAD_REQUEST, FieldErrors(ValidateRegistration(input, old(Usernames()), checks).error))
        && Unchanged()
      ensures ValidateRegistration(input, old(Usernames()), checks).Ok? ==>
        var u := NewUser(ValidateRegistration(input, old(Usernames()), checks).value, normalizeUsername);
        && u.username == normalizeUsername(Strip(input.username))
        && u.email == NormalizeEmail(Strip(input.email.value))
        && u.password == Strip(input.password)
        && (u.username in old(Usernames()) ==> resp == UsernameCollision && Unchanged())
        && (u.username !in old(Usernames()) ==>
              && users == old(users)[old(nextUserId) := u]
              && nextUserId == old(nextUserId) + 1
              && resp == Response(HTTP_201_CREATED, UserBody(old(nextUserId), u.username, u.email)))
      ensures old(AllInSync()) ==> AllInSync()
    {
      var validated := ValidateRegistration(input, Usernames(), checks);
      if validated.Err? {
        return Response(HTTP_400_BAD_REQUEST, FieldErrors(validated.error));
      }
      var user := NewUser(validated.value, normalizeUsername);
      if user.username in Usernames() {
        return UsernameCollision;
      }
      var id := InsertUserRow(user);
      resp := Response(HTTP_201_CREATED, UserBody(id, user.username, user.email));
    }

    /** The INSERT of create_user: the row goes in under the next id, keeping usernames unique. */
    method InsertUserRow(u: User) returns (id: UserId)
      requires Valid() && u.username !in Usernames()
      modifies this
      ensures Valid()
      ensures movies == old(movies) && reviews == old(reviews) && watchlist == old(watchlist) && favorites == old(favorites)
      ensures nextFilmeId == old(nextFilmeId) && nextReviewId == old(nextReviewId)
      ensures id == old(nextUserId) && users == old(users)[id := u] && nextUserId == id + 1
      ensures old(AllInSync()) ==> AllInSync()
    {
      id := nextUserId;
      users := users[id := u];
      nextUserId := id + 1;
    }

    /**
     * Filme.objects.create(...): Filme.save fills in an empty slug, then
     * the row is inserted under the next id unless its slug or imdb_id is
     * already taken. A movie inserted with media_rating 0 and
     * reviews_count 0 is in sync, since no review can reference it yet.
     */
    method CreateFilme(f: Filme, slugify: string -> string) returns (res: Result<FilmeId, StoreError>)
      requires Valid()
      modifies this
      ensures Valid()
      ensures reviews == old(reviews) && users == old(users) && watchlist == old(watchlist) && favorites == old(favorites)
      ensures nextReviewId == old(nextReviewId) && nextUserId == old(nextUserId)
      ensures var g := WithDefaultSlug(f, slugify);
        res.Err? <==> (exists h :: h in old(movies) && (old(movies)[h].slug == g.slug
                                                       || (g.imdb_id.Some? && old(movies)[h].imdb_id == g.imdb_id)))
      ensures res.Err? ==> Unchanged()
      ensures res.Ok? ==> && res.value == old(nextFilmeId)
                          && movies == old(movies)[res.value := WithDefaultSlug(f, slugify)]
                          && nextFilmeId == old(nextFilmeId) + 1
                          && Ratings(res.value) == []
      ensures old(AllInSync()) && f.media_rating == 0.0 && f.reviews_count == 0 ==> AllInSync()
    {
      var g := WithDefaultSlug(f, slugify);
      if exists h :: h in movies && (movies[h].slug == g.slug || (g.imdb_id.Some? && movies[h].imdb_id == g.imdb_id)) {
        return Err(IntegrityError);
      }
      var id := nextFilmeId;
      movies := movies[id := g];
      nextFilmeId := id + 1;
      NoReviewsNoRatings(reviews, id, nextReviewId);
      res := Ok(id);
    }
  }
}
