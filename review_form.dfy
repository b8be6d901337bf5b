/**
 * The review form of frontend/src/features/reviews/components/ReviewForm.tsx:
 * five star buttons set the rating, a submit with no rating is refused on
 * the client, and a successful submit clears the form.
 */
module ReviewForms {
  import opened Wrappers
  import opened Models
  import Serializers

  /** A review as the API returns it to the client. */
  datatype ClientReview = ClientReview(id: nat, autorId: UserId, titulo: string, texto: string, rating: nat, spoiler: bool)

  /** The body `createMovieReview` posts: no titulo and no autor. */
  datatype ReviewRequest = ReviewRequest(texto: string, rating: nat, spoiler: bool)

  /** The outcome of the awaited request: the created review, or an error with the body's `detail` if any. */
  datatype ReviewOutcome = Created(review: ClientReview) | Rejected(detail: Option<string>)

  const StarCount: nat := 5
  const SelectRatingMessage: string := "Por favor, selecione uma avaliação."
  const SubmitFailedMessage: string := "Ocorreu um erro ao submeter a sua review."

  /** Star i is drawn lit. */
  predicate StarHighlighted(i: nat, rating: nat)
  {
    i < rating
  }

  /** The number of lit stars among the first n. */
  function LitStars(rating: nat, n: nat): nat
  {
    if n == 0 then 0 else LitStars(rating, n - 1) + (if StarHighlighted(n - 1, rating) then 1 else 0)
  }

  /** Exactly min(rating, n) of the first n stars are lit. */
  lemma {:induction false} LitStarsIsMin(rating: nat, n: nat)
    ensures LitStars(rating, n) == if rating < n then rating else n
  {
    if n > 0 {
      LitStarsIsMin(rating, n - 1);
    }
  }

  /** A rating of 1..5 lights that many of the five stars, and the lit ones come first. */
  lemma LitStarsShowRating(rating: nat)
    requires rating <= StarCount
    ensures LitStars(rating, StarCount) == rating
    ensures forall i, j :: 0 <= i <= j < StarCount && StarHighlighted(j, rating) ==> StarHighlighted(i, rating)
  {
    LitStarsIsMin(rating, StarCount);
  }

  /** The error shown after a failure: the server's non-empty `detail`, else the fixed fallback. */
  function FailureMessage(detail: Option<string>): (m: string)
    ensures m != ""
    ensures detail.Some? && detail.value != "" ==> m == detail.value
    ensures detail.None? || detail == Some("") ==> m == SubmitFailedMessage
  {
    if detail.Some? && detail.value != "" then detail.value else SubmitFailedMessage
  }

  /** The request as the review serializer receives it. */
  function AsPayload(req: ReviewRequest): Serializers.ReviewPayload
  {
    Serializers.ReviewPayload(None, None, Some(req.texto), Some(req.rating), Some(req.spoiler))
  }

  /**
   * A request the form sends, with its rating from a star, is accepted by
   * the server exactly when the text is not blank; the stored review then
   * has an empty titulo and the form's rating and spoiler flag.
   */
  lemma FormRequestValidation(req: ReviewRequest)
    requires 1 <= req.rating <= StarCount
    ensures Serializers.ValidateNewReview(AsPayload(req)).Ok? <==> Serializers.Strip(req.texto) != ""
    ensures Serializers.ValidateNewReview(AsPayload(req)).Ok? ==>
      Serializers.ValidateNewReview(AsPayload(req)).value
        == Serializers.ReviewFields("", Serializers.Strip(req.texto), req.rating, req.spoiler)
    ensures Serializers.ValidateNewReview(AsPayload(req)).Err? ==>
      Serializers.ValidateNewReview(AsPayload(req)).error == {"texto"}
  {
    assert !Serializers.RatingError(AsPayload(req), false);
  }

  class ReviewForm {
    const movieSlug: string
    var texto: string
    var rating: nat
    var spoiler: bool
    var error: Option<string>
    var loading: bool

    /** Only the five stars set the rating, so it never exceeds five. */
    ghost predicate Valid()
      reads this
    {
      rating <= StarCount
    }

    constructor(slug: string)
      ensures Valid()
      ensures movieSlug == slug && texto == "" && rating == 0 && !spoiler && error == None && !loading
    {
      movieSlug := slug;
      texto, rating, spoiler := "", 0, false;
      error := None;
      loading := false;
    }

    /** Clicking star i (one of the five buttons) sets the rating to i + 1. */
    method ClickStar(i: nat)
      requires i < StarCount
      modifies this
      ensures Valid()
      ensures rating == i + 1
      ensures texto == old(texto) && spoiler == old(spoiler) && error == old(error) && loading == old(loading)
    {
      rating := i + 1;
    }

    method SetTexto(t: string)
      modifies this
      requires Valid()
      ensures Valid()
      ensures texto == t
      ensures rating == old(rating) && spoiler == old(spoiler) && error == old(error) && loading == old(loading)
    {
      texto := t;
    }

    method SetSpoiler(b: bool)
      modifies this
      requires Valid()
      ensures Valid()
      ensures spoiler == b
      ensures texto == old(texto) && rating == old(rating) && error == old(error) && loading == old(loading)
    {
      spoiler := b;
    }

    /**
     * handleSubmit, with `outcome` standing for the awaited request. With
     * no star chosen it only sets the error and sends nothing. Otherwise
     * it sends the form's fields, whose rating is then in 1..5; on success
     * it hands back the created review and clears the form, on failure it
     * keeps the fields and shows the failure message.
     */
    method HandleSubmit(outcome: ReviewOutcome) returns (sent: Option<ReviewRequest>, created: Option<ClientReview>)
      requires Valid()
      modifies this
      ensures Valid()
      ensures old(rating) == 0 ==>
        sent.None? && created.None? && error == Some(SelectRatingMessage)
        && texto == old(texto) && rating == 0 && spoiler == old(spoiler) && loading == old(loading)
      ensures old(rating) != 0 ==> sent == Some(ReviewRequest(old(texto), old(rating), old(spoiler))) && !loading
      ensures sent.Some? ==> 1 <= sent.value.rating <= StarCount
      ensures old(rating) != 0 && outcome.Created? ==>
        created == Some(outcome.review) && texto == "" && rating == 0 && !spoiler && error == None
      ensures old(rating) != 0 && outcome.Rejected? ==>
        created.None? && error == Some(FailureMessage(outcome.detail))
        && texto == old(texto) && rating == old(rating) && spoiler == old(spoiler)
    {
      if rating == 0 {
        error := Some(SelectRatingMessage);
        return None, None;
      }
      loading := true;
      error := None;
      sent := Some(ReviewRequest(texto, rating, spoiler));
      match outcome {
        case Created(review) =>
          created := Some(review);
          texto := "";
          rating := 0;
          spoiler := false;
        case Rejected(detail) =>
          created := None;
          if detail.Some? && detail.value != "" {
            error := Some(detail.value);
          } else {
            error := Some(SubmitFailedMessage);
          }
      }
      loading := false;
    }
  }

  /** Choosing star 3 and submitting sends a rating of 4 and clears the form on success. */
  method StarThenSubmit(slug: string, r: ClientReview) returns (sent: Option<ReviewRequest>, cleared: bool)
    ensures sent == Some(ReviewRequest("Bom filme", 4, false)) && cleared
  {
    var form := new ReviewForm(slug);
    form.SetTexto("Bom filme");
    form.ClickStar(3);
    var created;
    sent, created := form.HandleSubmit(Created(r));
    cleared := form.texto == "" && form.rating == 0 && !form.spoiler;
  }

  /** Submitting before choosing a star sends nothing and asks for a rating. */
  method SubmitWithoutStar(slug: string, outcome: ReviewOutcome) returns (sent: Option<ReviewRequest>, error: Option<string>)
    ensures sent.None? && error == Some(SelectRatingMessage)
  {
    var form := new ReviewForm(slug);
    form.SetTexto("Bom filme");
    var created;
    sent, created := form.HandleSubmit(outcome);
    error := form.error;
  }
}
