/**
 * The movie page of frontend/src/pages/MovieDetailPage.tsx: the loaded
 * movie, its reviews and the viewer's watchlist/favourite flags, with the
 * optimistic toggles and the review form/notice choice.
 */
module MovieDetail {
  import opened Wrappers
  import opened Models
  import opened Lists
  import opened Session
  import opened ReviewForms

  /** The two flags of the status endpoint. */
  datatype MovieStatus = MovieStatus(in_watchlist: bool, is_favorite: bool)

  /** The movie fields the page shows. */
  datatype MovieInfo = MovieInfo(titulo: string, slug: string, descricao: string)

  /** `reviews.some(review => review.autor.id === user?.id)`: with nobody logged in no id matches. */
  predicate HasReviewBy(reviews: seq<ClientReview>, user: Option<StoreUser>)
  {
    user.Some? && exists k :: 0 <= k < |reviews| && reviews[k].autorId == user.value.id
  }

  /** Nobody logged in has reviewed nothing; an empty list holds nobody's review. */
  lemma HasReviewByEdgeCases(reviews: seq<ClientReview>, user: Option<StoreUser>)
    ensures !HasReviewBy(reviews, None)
    ensures !HasReviewBy([], user)
  {
  }

  /** Prepending a review adds exactly its author to those who have reviewed. */
  lemma HasReviewByPrepend(r: ClientReview, reviews: seq<ClientReview>, user: Option<StoreUser>)
    ensures HasReviewBy([r] + reviews, user) <==>
      (user.Some? && r.autorId == user.value.id) || HasReviewBy(reviews, user)
  {
    if HasReviewBy(reviews, user) {
      var k :| 0 <= k < |reviews| && reviews[k].autorId == user.value.id;
      assert ([r] + reviews)[k + 1] == reviews[k];
    }
    if HasReviewBy([r] + reviews, user) {
      var k :| 0 <= k < |[r] + reviews| && ([r] + reviews)[k].autorId == user.value.id;
      if k > 0 {
        assert reviews[k - 1] == ([r] + reviews)[k];
      }
    }
    if user.Some? && r.autorId == user.value.id {
      assert ([r] + reviews)[0] == r;
    }
  }

  /**
   * The optimistic flag agrees with the server: if the page showed the
   * pair's membership before, the flipped flag is its membership after
   * the server's toggle; a second flip and toggle restore both.
   */
  lemma OptimisticFlipMatchesServer(w: seq<ListEntry>, e: ListEntry, shown: bool)
    requires shown == (e in w)
    ensures !shown == (e in Toggle(w, e))
    ensures !!shown == (e in Toggle(Toggle(w, e), e))
  {
  }

  class MovieDetailPage {
    /** The route parameter; None when the route supplied none. */
    const slug: Option<string>
    /** The session as read from the user store. */
    const isAuthenticated: bool
    const user: Option<StoreUser>
    var movie: Option<MovieInfo>
    var status: MovieStatus
    var reviews: seq<ClientReview>
    var loading: bool
    var error: Option<string>

    /** The session copy keeps the store's invariant. */
    ghost predicate Valid()
      reads this
    {
      isAuthenticated <==> user.Some?
    }

    /** The first render: nothing loaded, both flags false, loading. */
    constructor(routeSlug: Option<string>, session: UserStore)
      requires session.Valid()
      ensures Valid()
      ensures slug == routeSlug && isAuthenticated == session.isAuthenticated && user == session.user
      ensures movie == None && status == MovieStatus(false, false) && reviews == [] && loading && error == None
    {
      slug := routeSlug;
      isAuthenticated := session.isAuthenticated;
      user := session.user;
      movie := None;
      status := MovieStatus(false, false);
      reviews := [];
      loading := true;
      error := None;
    }

    /** `!slug` is false: a slug is present and non-empty. */
    predicate HasSlug()
      reads this
    {
      slug.Some? && slug.value != ""
    }

    /**
     * fetchMovieData, with `detail` standing for the movie and reviews
     * requests and `statusData` for the status request. The status is
     * requested only for an authenticated viewer and only after the
     * movie loaded; a failure shows its message.
     */
    method FetchMovieData(detail: Result<(MovieInfo, seq<ClientReview>), string>, statusData: Result<MovieStatus, string>)
      returns (statusRequested: bool)
      modifies this
      ensures statusRequested <==> HasSlug() && detail.Ok? && isAuthenticated
      ensures !HasSlug() ==> unchanged(this)
      ensures HasSlug() ==> !loading
      ensures HasSlug() && detail.Err? ==>
        error == Some(detail.error) && movie == old(movie) && reviews == old(reviews) && status == old(status)
      ensures HasSlug() && detail.Ok? ==> movie == Some(detail.value.0) && reviews == detail.value.1
      ensures HasSlug() && detail.Ok? && !isAuthenticated ==> status == old(status) && error == None
      ensures HasSlug() && detail.Ok? && isAuthenticated ==>
        if statusData.Ok? then status == statusData.value && error == None
        else status == old(status) && error == Some(statusData.error)
    {
      if !HasSlug() {
        return false;
      }
      loading := true;
      error := None;
      statusRequested := false;
      match detail {
        case Err(message) =>
          error := Some(message);
        case Ok(loaded) =>
          movie := Some(loaded.0);
          reviews := loaded.1;
          if isAuthenticated {
            statusRequested := true;
            match statusData {
              case Ok(s) => status := s;
              case Err(message) => error := Some(message);
            }
          }
      }
      loading := false;
    }

    /** The optimistic half of handleToggleWatchlist: remember the flag, then flip it. */
    method StartToggleWatchlist() returns (original: Option<bool>)
      modifies this
      ensures !HasSlug() ==> original.None? && unchanged(this)
      ensures HasSlug() ==> original == Some(old(status.in_watchlist))
      ensures HasSlug() ==> status == MovieStatus(!old(status.in_watchlist), old(status.is_favorite))
      ensures movie == old(movie) && reviews == old(reviews) && loading == old(loading) && error == old(error)
    {
      if !HasSlug() {
        return None;
      }
      original := Some(status.in_watchlist);
      status := status.(in_watchlist := !status.in_watchlist);
    }

    /** The settling half: a failed request puts the remembered flag back. */
    method SettleToggleWatchlist(original: bool, succeeded: bool)
      modifies this
      ensures succeeded ==> status == old(status)
      ensures !succeeded ==> status == MovieStatus(original, old(status.is_favorite))
      ensures movie == old(movie) && reviews == old(reviews) && loading == old(loading) && error == old(error)
    {
      if !succeeded {
        status := status.(in_watchlist := original);
      }
    }

    /** The whole handler: flipped on success, as it was on failure, is_favorite untouched. */
    method ToggleWatchlist(succeeded: bool)
      modifies this
      ensures !HasSlug() ==> unchanged(this)
      ensures HasSlug() ==> status == MovieStatus(
        if succeeded then !old(status.in_watchlist) else old(status.in_watchlist), old(status.is_favorite))
      ensures movie == old(movie) && reviews == old(reviews) && loading == old(loading) && error == old(error)
    {
      var original := StartToggleWatchlist();
      if original.Some? {
        SettleToggleWatchlist(original.value, succeeded);
      }
    }

    /** The optimistic half of handleToggleFavorite. */
    method StartToggleFavorite() returns (original: Option<bool>)
      modifies this
      ensures !HasSlug() ==> original.None? && unchanged(this)
      ensures HasSlug() ==> original == Some(old(status.is_favorite))
      ensures HasSlug() ==> status == MovieStatus(old(status.in_watchlist), !old(status.is_favorite))
      ensures movie == old(movie) && reviews == old(reviews) && loading == old(loading) && error == old(error)
    {
      if !HasSlug() {
        return None;
      }
      original := Some(status.is_favorite);
      status := status.(is_favorite := !status.is_favorite);
    }

    /** The settling half of handleToggleFavorite. */
    method SettleToggleFavorite(original: bool, succeeded: bool)
      modifies this
      ensures succeeded ==> status == old(status)
      ensures !succeeded ==> status == MovieStatus(old(status.in_watchlist), original)
      ensures movie == old(movie) && reviews == old(reviews) && loading == old(loading) && error == old(error)
    {
      if !succeeded {
        status := status.(is_favorite := original);
      }
    }

    /** The whole favourite handler: in_watchlist untouched. */
    method ToggleFavorite(succeeded: bool)
      modifies this
      ensures !HasSlug() ==> unchanged(this)
      ensures HasSlug() ==> status == MovieStatus(
        old(status.in_watchlist), if succeeded then !old(status.is_favorite) else old(status.is_favorite))
      ensures movie == old(movie) && reviews == old(reviews) && loading == old(loading) && error == old(error)
    {
      var original := StartToggleFavorite();
      if original.Some? {
        SettleToggleFavorite(original.value, succeeded);
      }
    }

    /** `userHasReviewed`. */
    predicate UserHasReviewed()
      reads this
    {
      HasReviewBy(reviews, user)
    }

    predicate ShowReviewForm()
      reads this
    {
      isAuthenticated && !UserHasReviewed()
    }

    predicate ShowReviewedNotice()
      reads this
    {
      isAuthenticated && UserHasReviewed()
    }

    /**
     * handleReviewSubmit: the new review goes first and the rest keep their
     * order; when it is the viewer's own, the form gives way to the notice.
     */
    method HandleReviewSubmit(r: ClientReview)
      modifies this
      requires Valid()
      ensures Valid()
      ensures reviews == [r] + old(reviews)
      ensures |reviews| == |old(reviews)| + 1 && reviews[0] == r && reviews[1..] == old(reviews)
      ensures movie == old(movie) && status == old(status) && loading == old(loading) && error == old(error)
      ensures isAuthenticated && r.autorId == user.value.id ==> ShowReviewedNotice() && !ShowReviewForm()
      ensures old(UserHasReviewed()) ==> UserHasReviewed()
    {
      HasReviewByPrepend(r, reviews, user);
      reviews := [r] + reviews;
    }
  }

  /** The form and the notice never show together, and an authenticated viewer sees exactly one. */
  lemma FormOrNotice(p: MovieDetailPage)
    requires p.Valid()
    ensures !(p.ShowReviewForm() && p.ShowReviewedNotice())
    ensures p.isAuthenticated <==> p.ShowReviewForm() || p.ShowReviewedNotice()
    ensures !p.isAuthenticated ==> !p.UserHasReviewed()
  {
  }
}
