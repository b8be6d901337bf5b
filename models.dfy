/**
 * The catalogue records: Filme (backend/core/models/filme.py), Review
 * (backend/core/models/review.py) and the registered User.
 */
module Models {
  import opened Wrappers

  type FilmeId = nat
  type ReviewId = nat
  type UserId = nat

  /**
   * A movie. `reviews_count` is not declared on the model class in
   * backend/core/models/filme.py, yet the aggregate hook writes it and the
   * signal test reads it; it is kept here as those two intend.
   * `updated_at` is an opaque clock value; `created_at` and the genre
   * relation are not modelled.
   */
  datatype Filme = Filme(
    titulo: string,
    slug: string,
    descricao: string,
    ano_lancamento: Option<nat>,
    imdb_id: Option<string>,
    media_rating: real,
    reviews_count: nat,
    poster: string,
    backdrop: string,
    updated_at: nat)

  /**
   * A review. The rating is any natural number here: the 1..5 range is a
   * field validator that only the serializer path runs, and
   * `Review.objects.create` stores whatever it is given.
   */
  datatype Review = Review(
    filme: FilmeId,
    autor: UserId,
    titulo: string,
    texto: string,
    rating: nat,
    spoiler: bool)

  /** A registered account; password hashing is not modelled. */
  datatype User = User(username: string, email: string, password: string)

  const MinRating: nat := 1
  const MaxRating: nat := 5

  /** The range the rating validators accept. */
  predicate ValidRating(rating: int)
  {
    MinRating <= rating <= MaxRating
  }

  /** A Filme created without explicit aggregate values. */
  function NewFilme(titulo: string, slug: string, ano_lancamento: Option<nat>, now: nat): (f: Filme)
    ensures f.media_rating == 0.0 && f.reviews_count == 0
    ensures f.titulo == titulo && f.slug == slug && f.ano_lancamento == ano_lancamento
    ensures f.imdb_id == None && f.descricao == "" && f.poster == "" && f.backdrop == ""
  {
    Filme(titulo, slug, "", ano_lancamento, None, 0.0, 0, "", "", now)
  }

  // ---------------------------------------------------------------------
  // Filme.save: slug defaulting
  // ---------------------------------------------------------------------

  /** Decimal digits of n, as Python's str(n) prints them. */
  function NatToString(n: nat): (s: string)
    ensures |s| > 0
    ensures forall i :: 0 <= i < |s| ==> '0' <= s[i] <= '9'
    decreases n
  {
    if n < 10 then [Digit(n)] else NatToString(n / 10) + [Digit(n % 10)]
  }

  function Digit(d: nat): (c: char)
    requires d < 10
    ensures '0' <= c <= '9'
  {
    ['0', '1', '2', '3', '4', '5', '6', '7', '8', '9'][d]
  }

  /**
   * The text handed to slugify: the f-string "{titulo}-{ano_lancamento}",
   * where a missing year prints as "None".
   */
  function SlugSource(titulo: string, ano_lancamento: Option<nat>): (s: string)
    ensures |s| > |titulo| && s[..|titulo|] == titulo && s[|titulo|] == '-'
  {
    titulo + "-" + match ano_lancamento
      case Some(y) => NatToString(y)
      case None => "None"
  }

  /**
   * What Filme.save writes: the slug is filled in from title and year only
   * when it is empty. `slugify` is Django's, taken as a parameter.
   */
  function WithDefaultSlug(f: Filme, slugify: string -> string): (g: Filme)
    ensures g.(slug := f.slug) == f
    ensures f.slug != "" ==> g.slug == f.slug
    ensures f.slug == "" ==> g.slug == slugify(SlugSource(f.titulo, f.ano_lancamento))
  {
    if f.slug == "" then f.(slug := slugify(SlugSource(f.titulo, f.ano_lancamento))) else f
  }

  /** Saving twice fills the slug in no differently from saving once. */
  lemma SaveSlugIdempotent(f: Filme, slugify: string -> string)
    requires slugify(SlugSource(f.titulo, f.ano_lancamento)) != ""
    ensures WithDefaultSlug(WithDefaultSlug(f, slugify), slugify) == WithDefaultSlug(f, slugify)
  {
  }

  // ---------------------------------------------------------------------
  // Default listing order: media_rating descending, then titulo ascending
  // ---------------------------------------------------------------------

  /** Code-point lexicographic order on strings ("a" <= "ab" <= "b"). */
  predicate LexLe(a: string, b: string)
    decreases |a|
  {
    if a == [] then true
    else if b == [] then false
    else if a[0] != b[0] then a[0] < b[0]
    else LexLe(a[1..], b[1..])
  }

  lemma {:induction false} LexLeTotal(a: string, b: string)
    ensures LexLe(a, b) || LexLe(b, a)
    decreases |a|
  {
    if a != [] && b != [] && a[0] == b[0] {
      LexLeTotal(a[1..], b[1..]);
    }
  }

  lemma {:induction false} LexLeTransitive(a: string, b: string, c: string)
    requires LexLe(a, b) && LexLe(b, c)
    ensures LexLe(a, c)
    decreases |a|
  {
    if a != [] && b != [] && c != [] && a[0] == b[0] && b[0] == c[0] {
      LexLeTransitive(a[1..], b[1..], c[1..]);
    }
  }

  lemma {:induction false} LexLeAntisymmetric(a: string, b: string)
    requires LexLe(a, b) && LexLe(b, a)
    ensures a == b
    decreases |a|
  {
    if a != [] && b != [] {
      LexLeAntisymmetric(a[1..], b[1..]);
    }
  }

  /** Filme a may be listed before Filme b under ordering ["-media_rating", "titulo"]. */
  predicate ListedBefore(a: Filme, b: Filme)
  {
    a.media_rating > b.media_rating
    || (a.media_rating == b.media_rating && LexLe(a.titulo, b.titulo))
  }

  /** A listing in the default order. */
  predicate InListingOrder(s: seq<Filme>)
  {
    forall i, j :: 0 <= i < j < |s| ==> ListedBefore(s[i], s[j])
  }

  /** Any two movies can be compared: the order is total. */
  lemma ListingOrderTotal(a: Filme, b: Filme)
    ensures ListedBefore(a, b) || ListedBefore(b, a)
  {
    LexLeTotal(a.titulo, b.titulo);
  }

  /** The order is transitive, so every catalogue has a listing in it. */
  lemma ListingOrderTransitive(a: Filme, b: Filme, c: Filme)
    requires ListedBefore(a, b) && ListedBefore(b, c)
    ensures ListedBefore(a, c)
  {
    if a.media_rating == b.media_rating == c.media_rating {
      LexLeTransitive(a.titulo, b.titulo, c.titulo);
    }
  }

  /** Equal ratings and mutually ordered titles mean equal titles: ties fall only on equal titles. */
  lemma ListingOrderTies(a: Filme, b: Filme)
    requires ListedBefore(a, b) && ListedBefore(b, a)
    ensures a.media_rating == b.media_rating && a.titulo == b.titulo
  {
    LexLeAntisymmetric(a.titulo, b.titulo);
  }
}
