/**
 * The rating aggregate of backend/core/signals.py: the mean and the count of
 * one movie's review ratings, as the `Avg("rating")` / `Count("id")` query
 * computes them. Ratings are exact rationals here (`real`), not floats.
 */
module Aggregates {
  import opened Models

  function Sum(rs: seq<nat>): nat
  {
    if rs == [] then 0 else Sum(rs[..|rs| - 1]) + rs[|rs| - 1]
  }

  /** Avg over the ratings, with `or 0.0` turning the empty case into 0.0. */
  function Mean(rs: seq<nat>): (m: real)
    ensures rs == [] ==> m == 0.0
    ensures rs != [] ==> m * (|rs| as real) == Sum(rs) as real
  {
    if rs == [] then 0.0 else Sum(rs) as real / |rs| as real
  }

  lemma SumAppend(rs: seq<nat>, x: nat)
    ensures Sum(rs + [x]) == Sum(rs) + x
  {
    assert (rs + [x])[..|rs|] == rs;
  }

  /** n copies of a added up: a times n, by repeated addition. */
  function Scale(a: nat, n: nat): nat
  {
    if n == 0 then 0 else Scale(a, n - 1) + a
  }

  lemma {:induction false} ScaleIsProduct(a: nat, n: nat)
    ensures Scale(a, n) as real == a as real * n as real
  {
    if n > 0 {
      ScaleIsProduct(a, n - 1);
      RealStep(a as real, (n - 1) as real);
    }
  }

  lemma RealStep(a: real, m: real)
    ensures a * m + a == a * (m + 1.0)
  {
  }

  /** Ratings within [lo, hi] sum to between |rs| copies of lo and of hi. */
  lemma {:induction false} SumBounds(rs: seq<nat>, lo: nat, hi: nat)
    requires forall i :: 0 <= i < |rs| ==> lo <= rs[i] <= hi
    ensures Scale(lo, |rs|) <= Sum(rs) <= Scale(hi, |rs|)
  {
    if rs != [] {
      SumBounds(rs[..|rs| - 1], lo, hi);
    }
  }

  /** The mean of ratings within [lo, hi] lies within [lo, hi]. */
  lemma MeanBounds(rs: seq<nat>, lo: nat, hi: nat)
    requires rs != []
    requires forall i :: 0 <= i < |rs| ==> lo <= rs[i] <= hi
    ensures lo as real <= Mean(rs) <= hi as real
  {
    SumBounds(rs, lo, hi);
    QuotientOfScaledBounds(|rs|, Sum(rs), Mean(rs), lo, hi);
  }

  /** A value m with m * n == total, for a total between n copies of lo and of hi, lies in [lo, hi]. */
  lemma QuotientOfScaledBounds(n: nat, total: nat, m: real, lo: nat, hi: nat)
    requires n > 0 && m * (n as real) == total as real
    requires Scale(lo, n) <= total <= Scale(hi, n)
    ensures lo as real <= m <= hi as real
  {
    ScaleIsProduct(lo, n);
    ScaleIsProduct(hi, n);
    QuotientBounds(n as real, total as real, m, lo as real, hi as real);
  }

  /** A quotient of a total bounded by a*n and b*n lies within [a, b]. */
  lemma QuotientBounds(n: real, total: real, m: real, a: real, b: real)
    requires n > 0.0 && m * n == total && a * n <= total <= b * n
    ensures a <= m <= b
  {
    if m < a {
      ScaleStrict(m, a, n);
    }
    if b < m {
      ScaleStrict(b, m, n);
    }
  }

  lemma ScaleStrict(x: real, y: real, n: real)
    requires n > 0.0 && x < y
    ensures x * n < y * n
  {
  }

  /**
   * The ratings of the reviews of movie f whose ids are below n, in id
   * order: the rows `Review.objects.filter(filme_id=f)` aggregates over.
   */
  function RatingsOf(reviews: map<ReviewId, Review>, f: FilmeId, n: nat): seq<nat>
  {
    if n == 0 then []
    else RatingsOf(reviews, f, n - 1)
         + if n - 1 in reviews && reviews[n - 1].filme == f then [reviews[n - 1].rating] else []
  }

  /** The ids of the reviews of movie f below n: the independent count. */
  function ReviewIdsOf(reviews: map<ReviewId, Review>, f: FilmeId, n: nat): set<ReviewId>
  {
    set id | id in reviews && id < n && reviews[id].filme == f
  }

  /**
   * `filme.reviews.all()` under the Meta ordering ["-created_at"]: ids are
   * handed out in creation order, so newest first is highest id first.
   */
  function ReviewsNewestFirst(reviews: map<ReviewId, Review>, f: FilmeId, n: nat): (r: seq<ReviewId>)
    ensures forall id :: id in r <==> id in ReviewIdsOf(reviews, f, n)
    ensures forall i, j :: 0 <= i < j < |r| ==> r[i] > r[j]
    ensures forall i :: 0 <= i < |r| ==> r[i] < n
  {
    if n == 0 then []
    else (if n - 1 in reviews && reviews[n - 1].filme == f then [n - 1] else [])
         + ReviewsNewestFirst(reviews, f, n - 1)
  }

  /** The review list of a movie is as long as the count its aggregate records. */
  lemma {:induction false} ListingLengthIsCount(reviews: map<ReviewId, Review>, f: FilmeId, n: nat)
    ensures |ReviewsNewestFirst(reviews, f, n)| == |RatingsOf(reviews, f, n)|
  {
    if n > 0 {
      ListingLengthIsCount(reviews, f, n - 1);
    }
  }

  /** The aggregated count is the number of reviews that reference the movie. */
  lemma {:induction false} CountIsNumberOfReviews(reviews: map<ReviewId, Review>, f: FilmeId, n: nat)
    ensures |RatingsOf(reviews, f, n)| == |ReviewIdsOf(reviews, f, n)|
  {
    if n == 0 {
      assert ReviewIdsOf(reviews, f, n) == {};
    } else {
      CountIsNumberOfReviews(reviews, f, n - 1);
      var below := ReviewIdsOf(reviews, f, n - 1);
      if n - 1 in reviews && reviews[n - 1].filme == f {
        assert ReviewIdsOf(reviews, f, n) == below + {n - 1};
        assert n - 1 !in below;
      } else {
        assert ReviewIdsOf(reviews, f, n) == below;
      }
    }
  }

  /** Every rating aggregated belongs to some review of the movie, and vice versa. */
  lemma {:induction false} RatingsAreThoseOfTheMovie(reviews: map<ReviewId, Review>, f: FilmeId, n: nat)
    ensures forall x :: x in RatingsOf(reviews, f, n) <==>
      exists id :: id in ReviewIdsOf(reviews, f, n) && reviews[id].rating == x
  {
    if n > 0 {
      RatingsAreThoseOfTheMovie(reviews, f, n - 1);
      assert forall id :: id in ReviewIdsOf(reviews, f, n) <==>
        id in ReviewIdsOf(reviews, f, n - 1) || (id == n - 1 && n - 1 in reviews && reviews[n - 1].filme == f);
    }
  }

  /** Every id of the listing names a stored review. */
  predicate ListedAreStored(reviews: map<ReviewId, Review>, listing: seq<ReviewId>)
  {
    forall i :: 0 <= i < |listing| ==> listing[i] in reviews
  }

  /**
   * The ratings of the stored reviews a listing names, oldest first: the
   * listing read from its end.
   */
  function ListingRatings(reviews: map<ReviewId, Review>, listing: seq<ReviewId>): seq<nat>
  {
    if listing == [] then []
    else ListingRatings(reviews, listing[1..]) + if listing[0] in reviews then [reviews[listing[0]].rating] else []
  }

  /**
   * The aggregated ratings are exactly the ratings of the movie's review
   * listing, one per review and in creation order, so the mean and the
   * count are those of the movie's reviews, multiplicities included.
   */
  lemma {:induction false} RatingsFollowTheListing(reviews: map<ReviewId, Review>, f: FilmeId, n: nat)
    ensures RatingsOf(reviews, f, n) == ListingRatings(reviews, ReviewsNewestFirst(reviews, f, n))
  {
    if n > 0 {
      RatingsFollowTheListing(reviews, f, n - 1);
      var rest := ReviewsNewestFirst(reviews, f, n - 1);
      if n - 1 in reviews && reviews[n - 1].filme == f {
        var l := [n - 1] + rest;
        assert ReviewsNewestFirst(reviews, f, n) == l;
        assert l[1..] == rest;
      } else {
        assert ReviewsNewestFirst(reviews, f, n) == rest;
      }
    }
  }

  /** The listing only names stored reviews. */
  lemma ListingIsStored(reviews: map<ReviewId, Review>, f: FilmeId, n: nat)
    ensures ListedAreStored(reviews, ReviewsNewestFirst(reviews, f, n))
  {
    var l := ReviewsNewestFirst(reviews, f, n);
    forall i | 0 <= i < |l|
      ensures l[i] in reviews
    {
      assert l[i] in ReviewIdsOf(reviews, f, n);
    }
  }

  /** Raising the id bound past every stored id adds nothing. */
  lemma {:induction false} RatingsBeyondLastId(reviews: map<ReviewId, Review>, f: FilmeId, n: nat, m: nat)
    requires forall id :: id in reviews ==> id < n
    requires n <= m
    ensures RatingsOf(reviews, f, m) == RatingsOf(reviews, f, n)
    decreases m
  {
    if m > n {
      RatingsBeyondLastId(reviews, f, n, m - 1);
    }
  }

  /** Two review tables that agree on the reviews of movie f aggregate alike for f. */
  predicate AgreeOn(r1: map<ReviewId, Review>, r2: map<ReviewId, Review>, f: FilmeId, n: nat)
  {
    forall id :: 0 <= id < n ==>
      (id in r1 && r1[id].filme == f <==> id in r2 && r2[id].filme == f)
      && (id in r1 && r1[id].filme == f ==> r1[id].rating == r2[id].rating)
  }

  lemma {:induction false} RatingsFrame(r1: map<ReviewId, Review>, r2: map<ReviewId, Review>, f: FilmeId, n: nat)
    requires AgreeOn(r1, r2, f, n)
    ensures RatingsOf(r1, f, n) == RatingsOf(r2, f, n)
  {
    if n > 0 {
      RatingsFrame(r1, r2, f, n - 1);
    }
  }

  /** Inserting a review of f under the next id appends its rating. */
  lemma RatingsAfterInsert(reviews: map<ReviewId, Review>, f: FilmeId, n: nat, r: Review)
    requires forall id :: id in reviews ==> id < n
    ensures r.filme == f ==> RatingsOf(reviews[n := r], f, n + 1) == RatingsOf(reviews, f, n) + [r.rating]
    ensures r.filme != f ==> RatingsOf(reviews[n := r], f, n + 1) == RatingsOf(reviews, f, n)
  {
    RatingsFrame(reviews, reviews[n := r], f, n);
  }

  /** The Filme after the aggregate write: mean, count and timestamp replaced, nothing else. */
  function Synced(m: Filme, rs: seq<nat>, now: nat): (s: Filme)
    ensures s.(media_rating := m.media_rating, reviews_count := m.reviews_count, updated_at := m.updated_at) == m
    ensures s.reviews_count == 0 <==> rs == []
    ensures rs == [] ==> s.media_rating == 0.0
    ensures rs != [] ==> s.media_rating * (s.reviews_count as real) == Sum(rs) as real
  {
    m.(media_rating := Mean(rs), reviews_count := |rs|, updated_at := now)
  }

  /**
   * `_atualizar_agregados_filme(f)` on the movie table: a movie that no
   * longer exists is left alone; otherwise only that movie is rewritten.
   */
  function RecomputeOn(movies: map<FilmeId, Filme>, reviews: map<ReviewId, Review>, n: nat, f: FilmeId, now: nat)
    : (r: map<FilmeId, Filme>)
    ensures r.Keys == movies.Keys
    ensures f !in movies ==> r == movies
    ensures forall g :: g in movies && g != f ==> r[g] == movies[g]
    ensures f in movies ==> r[f].reviews_count == |ReviewIdsOf(reviews, f, n)|
    ensures f in movies ==> r[f].media_rating == Mean(RatingsOf(reviews, f, n))
    ensures f in movies ==> r[f].(media_rating := movies[f].media_rating,
                                 reviews_count := movies[f].reviews_count,
                                 updated_at := movies[f].updated_at) == movies[f]
  {
    CountIsNumberOfReviews(reviews, f, n);
    if f in movies then movies[f := Synced(movies[f], RatingsOf(reviews, f, n), now)] else movies
  }

  /** Recomputing twice with no review change in between equals recomputing once. */
  lemma RecomputeIdempotent(movies: map<FilmeId, Filme>, reviews: map<ReviewId, Review>, n: nat, f: FilmeId, now: nat)
    ensures RecomputeOn(RecomputeOn(movies, reviews, n, f, now), reviews, n, f, now)
         == RecomputeOn(movies, reviews, n, f, now)
  {
  }
}
