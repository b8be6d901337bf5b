/**
 * Concrete runs of the catalogue store: the rating aggregate sequence of
 * backend/core/tests.py and the review that is moved to another movie.
 */
module Scenarios {
  import opened Wrappers
  import opened Models
  import opened Lists
  import opened Aggregates
  import opened Serializers
  import opened Catalog

  function TestSlugify(s: string): string { s }

  function TestFilme(now: nat): Filme { NewFilme("Filme de Teste", "filme-de-teste", Some(2025), now) }

  /** The three means the test expects. */
  lemma ExpectedMeans()
    ensures Mean([10]) == 10.0 && Mean([10, 5]) == 7.5 && Mean([10, 8]) == 9.0
  {
    assert Sum([10]) == 10;
    assert [10, 5][..1] == [10];
    assert Sum([10, 5]) == 15;
    assert [10, 8][..1] == [10];
    assert Sum([10, 8]) == 18;
  }

  lemma RatingsOfOne(x: Review, f: FilmeId, n: nat)
    requires x.filme == f && n >= 1
    ensures RatingsOf(map[0 := x], f, n) == [x.rating]
  {
    RatingsBeyondLastId(map[0 := x], f, 1, n);
  }

  lemma RatingsOfTwo(x: Review, y: Review, f: FilmeId)
    requires x.filme == f && y.filme == f
    ensures RatingsOf(map[0 := x, 1 := y], f, 2) == [x.rating, y.rating]
  {
    var m := map[0 := x, 1 := y];
    assert RatingsOf(m, f, 0) == [];
    assert RatingsOf(m, f, 1) == [x.rating];
  }

  /** Equalities of small review tables, kept apart from the store proofs. */
  lemma ReplaceSecond(a: Review, b: Review, c: Review)
    ensures map[0 := a, 1 := b][1 := c] == map[0 := a, 1 := c]
  {
  }

  lemma DropSecond(a: Review, b: Review)
    ensures map[0 := a, 1 := b] - {1} == map[0 := a]
  {
  }

  lemma ReplaceOnly(a: Review, c: Review)
    ensures map[0 := a][0 := c] == map[0 := c]
  {
  }

  /** The users of the test's setUp, created through create_user with no email. */
  const UserA: User := User("user_a", "", "123")
  const UserB: User := User("user_b", "", "123")

  /** A fresh store in which create_user has made user_a and user_b (ids 0 and 1). */
  method TwoUsers() returns (store: CatalogStore)
    ensures fresh(store) && store.Valid()
    ensures store.users.Keys == {0, 1} && store.movies == map[]
    ensures store.reviews == map[] && store.nextReviewId == 0 && store.nextFilmeId == 0
  {
    store := new CatalogStore();
    assert store.Usernames() == {};
    var a := store.InsertUserRow(UserA);
    assert store.users == map[0 := UserA];
    assert "user_b" !in store.Usernames();
    var b := store.InsertUserRow(UserB);
  }

  /**
   * A store with two registered users (ids 0 and 1) and one movie (id 0)
   * created with media_rating 0.0 and reviews_count 0.
   */
  method TwoUsersOneFilme(now: nat) returns (store: CatalogStore)
    ensures fresh(store) && store.Valid()
    ensures store.users.Keys == {0, 1} && store.movies == map[0 := TestFilme(now)]
    ensures store.reviews == map[] && store.nextReviewId == 0 && store.nextFilmeId == 1
    ensures store.Ratings(0) == []
  {
    store := TwoUsers();
    var filme := TestFilme(now);
    assert WithDefaultSlug(filme, TestSlugify) == filme;
    var f := store.CreateFilme(filme, TestSlugify);
  }

  /** The reviews of test_review_signal_updates_rating: user_a rates 10, user_b 5, then 8. */
  const ReviewA: Review := Review(0, 0, "", "", 10, false)
  const ReviewB: Review := Review(0, 1, "", "", 5, false)
  const ReviewB8: Review := Review(0, 1, "", "", 8, false)

  /**
   * The first step of test_review_signal_updates_rating: user_a's rating
   * of 10 goes in through the ORM, which runs no field validator, so the
   * out-of-range 10 is stored and the movie reads 10.0 over 1 review.
   */
  method AfterFirstReview(now: nat) returns (store: CatalogStore)
    ensures fresh(store) && store.Valid()
    ensures store.users.Keys == {0, 1} && store.movies.Keys == {0}
    ensures store.reviews == map[0 := ReviewA] && store.nextReviewId == 1
    ensures store.movies[0].media_rating == 10.0 && store.movies[0].reviews_count == 1
  {
    ExpectedMeans();
    store := TwoUsersOneFilme(now);
    assert !store.HasReview(0, 0);
    var a := store.CreateReviewRecord(ReviewA, now);
    RatingsOfOne(ReviewA, 0, 1);
  }

  /** Second step: user_b's 5 brings the movie to 7.5 over 2 reviews. */
  method AfterSecondReview(now: nat) returns (store: CatalogStore)
    ensures fresh(store) && store.Valid()
    ensures store.users.Keys == {0, 1} && store.movies.Keys == {0}
    ensures store.reviews == map[0 := ReviewA, 1 := ReviewB] && store.nextReviewId == 2
    ensures store.movies[0].media_rating == 7.5 && store.movies[0].reviews_count == 2
  {
    ExpectedMeans();
    store := AfterFirstReview(now);
    assert !store.HasReview(0, 1);
    var b := store.CreateReviewRecord(ReviewB, now);
    RatingsOfTwo(ReviewA, ReviewB, 0);
  }

  /** Third step: user_b's review saved with 8 gives 9.0 over 2 reviews. */
  method AfterUpdate(now: nat) returns (store: CatalogStore)
    ensures fresh(store) && store.Valid()
    ensures store.users.Keys == {0, 1} && store.movies.Keys == {0}
    ensures store.reviews == map[0 := ReviewA, 1 := ReviewB8] && store.nextReviewId == 2
    ensures store.movies[0].media_rating == 9.0 && store.movies[0].reviews_count == 2
  {
    ExpectedMeans();
    store := AfterSecondReview(now);
    assert !Clashes(store.reviews, 1, ReviewB8);
    var b := store.SaveReviewRecord(1, ReviewB8, now);
    ReplaceSecond(ReviewA, ReviewB, ReviewB8);
    RatingsOfTwo(ReviewA, ReviewB8, 0);
  }

  /** Last step: deleting user_b's review brings the movie back to 10.0 over 1 review. */
  method RatingAggregateScenario(now: nat) returns (media: real, count: nat)
    ensures media == 10.0 && count == 1
  {
    ExpectedMeans();
    var store := AfterUpdate(now);
    store.DeleteReviewRecord(1, now);
    DropSecond(ReviewA, ReviewB8);
    RatingsOfOne(ReviewA, 0, 2);
    media, count := store.movies[0].media_rating, store.movies[0].reviews_count;
  }

  /** A review of movie 0 by user_a, as the admin form shows it, and the same review moved to movie 1. */
  const ReviewOfFirst: Review := Review(0, 0, "", "", 4, false)
  const ReviewMoved: Review := Review(1, 0, "", "", 4, false)

  lemma RatingsOfOther(x: Review, f: FilmeId, n: nat)
    requires x.filme != f
    ensures RatingsOf(map[0 := x], f, n) == []
  {
    if n > 0 {
      RatingsOfOther(x, f, n - 1);
    }
  }

  /** The test store with a second movie (id 1) added. */
  method TwoFilmes(now: nat) returns (store: CatalogStore)
    ensures fresh(store) && store.Valid()
    ensures store.users.Keys == {0, 1} && store.movies.Keys == {0, 1}
    ensures store.reviews == map[] && store.nextReviewId == 0
  {
    store := TwoUsersOneFilme(now);
    var other := NewFilme("Outro Filme", "outro-filme", Some(2024), now);
    assert WithDefaultSlug(other, TestSlugify) == other;
    var g := store.CreateFilme(other, TestSlugify);
  }

  /** Two movies, and one review of movie 0 counted by it. */
  method TwoFilmesOneReview(now: nat) returns (store: CatalogStore)
    ensures fresh(store) && store.Valid()
    ensures store.users.Keys == {0, 1} && store.movies.Keys == {0, 1}
    ensures store.reviews == map[0 := ReviewOfFirst] && store.nextReviewId == 1
    ensures store.movies[0].reviews_count == 1
  {
    store := TwoFilmes(now);
    assert !store.HasReview(0, 0);
    var a := store.CreateReviewRecord(ReviewOfFirst, now);
    RatingsOfOne(ReviewOfFirst, 0, 1);
  }

  /**
   * The review of movie 0 saved with its movie changed to 1 (the Review
   * admin form allows it): post_save recomputes movie 1 only, and movie 0
   * still counts the review that left it.
   */
  method MovedReviewLeavesStaleCount(now: nat) returns (staleCount: nat, actual: nat)
    ensures staleCount == 1 && actual == 0
  {
    var store := TwoFilmesOneReview(now);
    assert !Clashes(store.reviews, 0, ReviewMoved);
    var moved := store.SaveReviewRecord(0, ReviewMoved, now);
    ReplaceOnly(ReviewOfFirst, ReviewMoved);
    RatingsOfOther(ReviewMoved, 0, 1);
    staleCount, actual := store.movies[0].reviews_count, |store.Ratings(0)|;
  }

  /** The same move through the resyncing save: both movies are recomputed. */
  method MovedAndResynced(now: nat) returns (store: CatalogStore)
    ensures fresh(store)
    ensures store.reviews == map[0 := ReviewMoved] && store.nextReviewId == 1
    ensures store.InSync(0) && store.InSync(1)
  {
    store := TwoFilmesOneReview(now);
    assert !Clashes(store.reviews, 0, ReviewMoved);
    var moved := store.SaveReviewRecordResyncing(0, ReviewMoved, now);
    ReplaceOnly(ReviewOfFirst, ReviewMoved);
  }

  /** After the resyncing save, movie 0 counts no review and movie 1 counts one. */
  method MovedReviewResynced(now: nat) returns (leftCount: nat, joinedCount: nat)
    ensures leftCount == 0 && joinedCount == 1
  {
    var store := MovedAndResynced(now);
    RatingsOfOther(ReviewMoved, 0, 1);
    RatingsOfOne(ReviewMoved, 1, 1);
    leftCount, joinedCount := store.movies[0].reviews_count, store.movies[1].reviews_count;
  }
}
