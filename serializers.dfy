/**
 * The request-data rules of backend/core/serializers.py that the views rely
 * on: registration validation, review payload validation (with `autor`
 * read-only) and the movie field sets.
 */
module Serializers {
  import opened Wrappers
  import opened Models

  // ---------------------------------------------------------------------
  // Whitespace trimming done by every CharField before validation
  // ---------------------------------------------------------------------

  /** The ASCII characters Python's str.strip() removes. */
  predicate IsSpace(c: char)
  {
    c == ' ' || c == '\t' || c == '\n' || c == '\r' || c == '\U{B}' || c == '\U{C}'
    || ('\U{1C}' <= c <= '\U{1F}')
  }

  /** The end of the whitespace run that starts at i. */
  function SkipSpaces(s: string, i: nat): (j: nat)
    requires i <= |s|
    ensures i <= j <= |s|
    ensures forall k :: i <= k < j ==> IsSpace(s[k])
    ensures j < |s| ==> !IsSpace(s[j])
    decreases |s| - i
  {
    if i < |s| && IsSpace(s[i]) then SkipSpaces(s, i + 1) else i
  }

  /** The start of the whitespace run that ends at j, going no lower than lo. */
  function BackSpaces(s: string, lo: nat, j: nat): (e: nat)
    requires lo <= j <= |s|
    ensures lo <= e <= j
    ensures forall k :: e <= k < j ==> IsSpace(s[k])
    ensures lo < e ==> !IsSpace(s[e - 1])
    decreases j
  {
    if lo < j && IsSpace(s[j - 1]) then BackSpaces(s, lo, j - 1) else j
  }

  /** The length of the leading whitespace run that str.strip() removes. */
  function LeadingSpaces(s: string): (n: nat)
    ensures n <= |s|
    ensures forall k :: 0 <= k < n ==> IsSpace(s[k])
    ensures n < |s| ==> !IsSpace(s[n])
  {
    SkipSpaces(s, 0)
  }

  /**
   * str.strip(): the text that starts right after the leading whitespace
   * run and is followed by whitespace only, with none left at its ends.
   */
  function Strip(s: string): (r: string)
    ensures LeadingSpaces(s) + |r| <= |s| && r == s[LeadingSpaces(s)..LeadingSpaces(s) + |r|]
    ensures forall k :: LeadingSpaces(s) + |r| <= k < |s| ==> IsSpace(s[k])
    ensures r == [] || (!IsSpace(r[0]) && !IsSpace(r[|r| - 1]))
  {
    var i := LeadingSpaces(s);
    s[i..BackSpaces(s, i, |s|)]
  }

  /** Text that is empty once trimmed: DRF's "blank". */
  lemma BlankIsAllSpace(s: string)
    ensures Strip(s) == [] <==> forall k :: 0 <= k < |s| ==> IsSpace(s[k])
  {
    var i := LeadingSpaces(s);
    if Strip(s) == [] {
      assert forall k :: 0 <= k < |s| ==> IsSpace(s[k]);
    } else {
      assert s[i] == Strip(s)[0];
    }
  }

  /**
   * The trimmed text is the only slice with whitespace before and after it
   * and none at its own ends.
   */
  lemma StripCharacterized(s: string, i: nat, e: nat)
    requires i <= e <= |s|
    requires forall k :: 0 <= k < i ==> IsSpace(s[k])
    requires forall k :: e <= k < |s| ==> IsSpace(s[k])
    requires i < e ==> !IsSpace(s[i]) && !IsSpace(s[e - 1])
    ensures Strip(s) == s[i..e]
  {
    var r := Strip(s);
    var i0 := LeadingSpaces(s);
    var e0 := i0 + |r|;
    if i < e {
      assert i0 == i;
      assert e0 == e;
    } else {
      BlankIsAllSpace(s);
    }
  }

  // ---------------------------------------------------------------------
  // UserRegistrationSerializer
  // ---------------------------------------------------------------------

  /** The registration request; `email` may be missing from the payload. */
  datatype RegistrationInput = RegistrationInput(
    username: string, email: Option<string>, password: string, password2: string)

  /** The validation error: the set of payload keys it reports. */
  type ErrorKeys = set<string>

  /**
   * UserRegistrationSerializer.validate: the two passwords must match;
   * the attributes are returned unchanged when they do.
   */
  function Validate(attrs: RegistrationInput): (r: Result<RegistrationInput, ErrorKeys>)
    ensures r.Ok? <==> attrs.password == attrs.password2
    ensures r.Ok? ==> r.value == attrs
    ensures r.Err? ==> r.error == {"password"}
  {
    if attrs.password != attrs.password2 then Err({"password"}) else Ok(attrs)
  }

  /**
   * The attributes after field validation: every CharField trims its
   * value (trim_whitespace), and a present email is trimmed too.
   */
  function Cleaned(input: RegistrationInput): RegistrationInput
  {
    RegistrationInput(
      Strip(input.username),
      if input.email.Some? then Some(Strip(input.email.value)) else None,
      Strip(input.password),
      Strip(input.password2))
  }

  /** User.username's max_length. */
  const UsernameMaxLength: nat := 150
  /** User.email's max_length (the EmailField default). */
  const EmailMaxLength: nat := 254

  /**
   * The verdicts of the validators whose rules the model takes as given,
   * each on the trimmed value: UnicodeUsernameValidator on the username,
   * the EmailField's address check on the email, and validate_password on
   * the password. None of them runs on a blank value.
   */
  datatype FieldChecks = FieldChecks(usernameOk: bool, emailOk: bool, passwordOk: bool)

  /**
   * A trimmed username passes its field: it is not blank, fits the model's
   * max_length, passes the character validator and is not registered yet.
   */
  predicate UsernameAccepted(u: string, taken: set<string>, checks: FieldChecks)
  {
    u != "" && |u| <= UsernameMaxLength && checks.usernameOk && u !in taken
  }

  /**
   * A trimmed email passes its field: the model field is blank=True, so
   * the blank address is accepted without any validator; any other must
   * fit max_length and be a well-formed address.
   */
  predicate EmailAccepted(e: string, checks: FieldChecks)
  {
    e == "" || (|e| <= EmailMaxLength && checks.emailOk)
  }

  /**
   * The field errors, reported together before validate() runs, one key
   * per failing field: the username, a missing or refused email, a blank
   * password or one validate_password rejects, a blank password2. `taken`
   * is the set of usernames already registered.
   */
  function RegistrationFieldErrors(input: RegistrationInput, taken: set<string>, checks: FieldChecks): ErrorKeys
  {
    CleanedFieldErrors(Cleaned(input), taken, checks)
  }

  function CleanedFieldErrors(c: RegistrationInput, taken: set<string>, checks: FieldChecks): ErrorKeys
  {
    (if !UsernameAccepted(c.username, taken, checks) then {"username"} else {})
    + (if c.email.None? || !EmailAccepted(c.email.value, checks) then {"email"} else {})
    + (if c.password == "" || !checks.passwordOk then {"password"} else {})
    + (if c.password2 == "" then {"password2"} else {})
  }

  /** Field validation followed by validate(), on the trimmed attributes. */
  function ValidateRegistration(input: RegistrationInput, taken: set<string>, checks: FieldChecks)
    : (r: Result<RegistrationInput, ErrorKeys>)
    ensures r.Ok? <==> && UsernameAccepted(Strip(input.username), taken, checks)
                       && input.email.Some? && EmailAccepted(Strip(input.email.value), checks)
                       && Strip(input.password) != "" && checks.passwordOk
                       && Strip(input.password2) != "" && Strip(input.password) == Strip(input.password2)
    ensures r.Ok? ==> && r.value.username == Strip(input.username)
                      && r.value.email == Some(Strip(input.email.value))
                      && r.value.password == Strip(input.password) == Strip(input.password2)
    ensures r.Err? ==> r.error != {}
  {
    var fieldErrors := RegistrationFieldErrors(input, taken, checks);
    if fieldErrors != {} then Err(fieldErrors) else Validate(Cleaned(input))
  }

  /** A rejected registration reports each field error under its own field's key. */
  lemma RegistrationFieldKeys(input: RegistrationInput, taken: set<string>, checks: FieldChecks)
    requires ValidateRegistration(input, taken, checks).Err?
    ensures var e := ValidateRegistration(input, taken, checks).error;
      && ("username" in e <==> !UsernameAccepted(Strip(input.username), taken, checks))
      && ("email" in e <==> input.email.None? || !EmailAccepted(Strip(input.email.value), checks))
      && ("password2" in e <==> Strip(input.password2) == "")
  {
    var c := Cleaned(input);
    CleanedKeys(c, taken, checks);
    RegistrationKeysDistinct();
  }

  /**
   * "password" is reported for a blank password, for one the validators
   * reject, or when the comparison fails; in the last case it is the only key.
   */
  lemma RegistrationPasswordKey(input: RegistrationInput, taken: set<string>, checks: FieldChecks)
    requires ValidateRegistration(input, taken, checks).Err?
    ensures var e := ValidateRegistration(input, taken, checks).error;
      && ("password" in e <==> (Strip(input.password) == "" || !checks.passwordOk
                                || RegistrationFieldErrors(input, taken, checks) == {}))
      && (RegistrationFieldErrors(input, taken, checks) == {} ==> e == {"password"})
  {
    var c := Cleaned(input);
    CleanedKeys(c, taken, checks);
  }

  /** The field errors of a cleaned record, key by key. */
  lemma CleanedKeys(c: RegistrationInput, taken: set<string>, checks: FieldChecks)
    ensures var e := CleanedFieldErrors(c, taken, checks);
      && ("username" in e <==> !UsernameAccepted(c.username, taken, checks))
      && ("email" in e <==> c.email.None? || !EmailAccepted(c.email.value, checks))
      && ("password" in e <==> c.password == "" || !checks.passwordOk)
      && ("password2" in e <==> c.password2 == "")
  {
    RegistrationKeysDistinct();
  }

  lemma RegistrationKeysDistinct()
    ensures "username" != "email" && "username" != "password" && "username" != "password2"
    ensures "email" != "password" && "email" != "password2" && "password" != "password2"
  {
    assert "username"[0] != "password"[0];
  }

  /** Whitespace around the fields never changes the verdict: validating the trimmed input gives the same result. */
  lemma SurroundingSpaceIgnored(input: RegistrationInput, taken: set<string>, checks: FieldChecks)
    ensures ValidateRegistration(Cleaned(input), taken, checks) == ValidateRegistration(input, taken, checks)
  {
    CleanedIdempotent(input);
  }

  lemma CleanedIdempotent(input: RegistrationInput)
    ensures Cleaned(Cleaned(input)) == Cleaned(input)
  {
    StripIdempotent(input.username);
    StripIdempotent(input.password);
    StripIdempotent(input.password2);
    if input.email.Some? {
      StripIdempotent(input.email.value);
    }
  }

  /** A leading space on the password is trimmed away before any check, so it never changes the verdict. */
  lemma LeadingSpaceOnPasswordIgnored(username: string, email: Option<string>, password: string, password2: string,
                                      taken: set<string>, checks: FieldChecks)
    ensures ValidateRegistration(RegistrationInput(username, email, " " + password, password2), taken, checks)
         == ValidateRegistration(RegistrationInput(username, email, password, password2), taken, checks)
  {
    LeadingSpaceStripped(" " + password);
    assert (" " + password)[1..] == password;
    SameCleanedSameVerdict(RegistrationInput(username, email, " " + password, password2),
                           RegistrationInput(username, email, password, password2), taken, checks);
  }

  /** The verdict depends on the trimmed record only. */
  lemma SameCleanedSameVerdict(a: RegistrationInput, b: RegistrationInput, taken: set<string>, checks: FieldChecks)
    requires Cleaned(a) == Cleaned(b)
    ensures ValidateRegistration(a, taken, checks) == ValidateRegistration(b, taken, checks)
  {
  }

  /** A leading whitespace character is trimmed like none was there. */
  lemma LeadingSpaceStripped(s: string)
    requires s != [] && IsSpace(s[0])
    ensures Strip(s) == Strip(s[1..])
  {
    var t := s[1..];
    var i := LeadingSpaces(t);
    var e := i + |Strip(t)|;
    if i < e {
      assert Strip(t)[0] == t[i] && Strip(t)[|Strip(t)| - 1] == t[e - 1];
    }
    ShiftedBounds(s, i, e);
    StripCharacterized(s, i + 1, e + 1);
    assert s[i + 1..e + 1] == t[i..e];
  }

  /** Bounds of a trimmed slice of s[1..] are, one further on, bounds in s when s[0] is whitespace. */
  lemma ShiftedBounds(s: string, i: nat, e: nat)
    requires s != [] && IsSpace(s[0]) && i <= e <= |s| - 1
    requires forall k :: 0 <= k < i ==> IsSpace(s[1..][k])
    requires forall k :: e <= k < |s| - 1 ==> IsSpace(s[1..][k])
    requires i < e ==> !IsSpace(s[1..][i]) && !IsSpace(s[1..][e - 1])
    ensures forall k :: 0 <= k < i + 1 ==> IsSpace(s[k])
    ensures forall k :: e + 1 <= k < |s| ==> IsSpace(s[k])
    ensures i < e ==> !IsSpace(s[i + 1]) && !IsSpace(s[e])
  {
    var t := s[1..];
    forall k | 0 <= k < i + 1
      ensures IsSpace(s[k])
    {
      if k > 0 { assert s[k] == t[k - 1]; }
    }
    forall k | e + 1 <= k < |s|
      ensures IsSpace(s[k])
    {
      assert s[k] == t[k - 1];
    }
  }

  /** A username of spaces only is blank, so it is reported whatever else the request holds. */
  lemma BlankUsernameRejected(email: Option<string>, password: string, password2: string, taken: set<string>, checks: FieldChecks)
    ensures ValidateRegistration(RegistrationInput("   ", email, password, password2), taken, checks).Err?
    ensures "username" in ValidateRegistration(RegistrationInput("   ", email, password, password2), taken, checks).error
  {
    assert forall k :: 0 <= k < |"   "| ==> IsSpace("   "[k]);
    BlankIsAllSpace("   ");
    RegistrationKeysDistinct();
  }

  /**
   * A non-blank address the EmailField refuses is reported under "email",
   * whatever the other fields hold.
   */
  lemma MalformedEmailRejected(input: RegistrationInput, taken: set<string>, checks: FieldChecks)
    requires input.email.Some? && Strip(input.email.value) != "" && !checks.emailOk
    ensures ValidateRegistration(input, taken, checks).Err?
    ensures "email" in ValidateRegistration(input, taken, checks).error
  {
    RegistrationFieldKeys(input, taken, checks);
  }

  /** A blank email is allowed (blank=True) and never reported, whatever the address check says. */
  lemma BlankEmailAccepted(input: RegistrationInput, taken: set<string>, checks: FieldChecks)
    requires input.email.Some? && Strip(input.email.value) == ""
    requires ValidateRegistration(input, taken, checks).Err?
    ensures "email" !in ValidateRegistration(input, taken, checks).error
  {
    RegistrationFieldKeys(input, taken, checks);
  }

  /** A username longer than max_length once trimmed is reported under "username". */
  lemma LongUsernameRejected(input: RegistrationInput, taken: set<string>, checks: FieldChecks)
    requires |Strip(input.username)| > UsernameMaxLength
    ensures ValidateRegistration(input, taken, checks).Err?
    ensures "username" in ValidateRegistration(input, taken, checks).error
  {
    RegistrationFieldKeys(input, taken, checks);
  }

  /** Text without surrounding whitespace is its own trimmed form. */
  lemma NoSpaceAtEnds(s: string)
    requires s == [] || (!IsSpace(s[0]) && !IsSpace(s[|s| - 1]))
    ensures Strip(s) == s
  {
    StripCharacterized(s, 0, |s|);
    assert s[0..|s|] == s;
  }

  /** An acceptable registration whose fields carry no surrounding space is accepted unchanged. */
  lemma TrimmedRegistrationAccepted(input: RegistrationInput, taken: set<string>)
    requires input.username != [] && !IsSpace(input.username[0]) && !IsSpace(input.username[|input.username| - 1])
    requires input.email.Some? && input.email.value != []
    requires !IsSpace(input.email.value[0]) && !IsSpace(input.email.value[|input.email.value| - 1])
    requires input.password != [] && !IsSpace(input.password[0]) && !IsSpace(input.password[|input.password| - 1])
    requires input.password2 == input.password && input.username !in taken
    requires |input.username| <= UsernameMaxLength && |input.email.value| <= EmailMaxLength
    ensures ValidateRegistration(input, taken, FieldChecks(true, true, true)) == Ok(input)
  {
    NoSpaceAtEnds(input.username);
    NoSpaceAtEnds(input.email.value);
    NoSpaceAtEnds(input.password);
    assert Cleaned(input) == input;
    assert CleanedFieldErrors(input, taken, FieldChecks(true, true, true)) == {};
    assert RegistrationFieldErrors(input, taken, FieldChecks(true, true, true)) == {};
  }

  // ---------------------------------------------------------------------
  // UserRegistrationSerializer.create, through UserManager.create_user
  // ---------------------------------------------------------------------

  /** str.lower() on one character: ASCII capitals become small letters, every other character is kept. */
  function LowerChar(c: char): (d: char)
    ensures 'A' <= c <= 'Z' ==> d as int == c as int + 32
    ensures !('A' <= c <= 'Z') ==> d == c
  {
    if 'A' <= c <= 'Z' then (c as int + 32) as char else c
  }

  function Lower(s: string): (r: string)
    ensures |r| == |s| && forall i :: 0 <= i < |s| ==> r[i] == LowerChar(s[i])
  {
    seq(|s|, i requires 0 <= i < |s| => LowerChar(s[i]))
  }

  /** Where rsplit(c, 1) cuts: the index of the last c in s, or -1 when there is none. */
  function LastIndexOf(s: string, c: char): (k: int)
    ensures -1 <= k < |s|
    ensures k >= 0 ==> s[k] == c
    ensures forall j :: k < j < |s| ==> s[j] != c
    decreases |s|
  {
    if s == [] then -1 else if s[|s| - 1] == c then |s| - 1 else LastIndexOf(s[..|s| - 1], c)
  }

  /** An occurrence of c with none after it is the one LastIndexOf finds. */
  lemma LastIndexOfUnique(s: string, c: char, k: int)
    requires 0 <= k < |s| && s[k] == c
    requires forall j :: k < j < |s| ==> s[j] != c
    ensures LastIndexOf(s, c) == k
  {
  }

  /**
   * The split of normalize_email on a stripped address: when it holds an
   * '@', the part after the last one is lower-cased and the rest kept.
   */
  function NormalizeAddress(s: string): (r: string)
    ensures |r| == |s|
    ensures LastIndexOf(s, '@') < 0 ==> r == s
    ensures forall i :: 0 <= i <= LastIndexOf(s, '@') ==> r[i] == s[i]
    ensures forall i :: 0 <= LastIndexOf(s, '@') < i < |s| ==> !('A' <= r[i] <= 'Z') && LowerChar(r[i]) == LowerChar(s[i])
  {
    var k := LastIndexOf(s, '@');
    if k < 0 then s else s[..k] + "@" + Lower(s[k + 1..])
  }

  /** Lower-casing the domain creates no '@' and no whitespace. */
  lemma NormalizedChar(c: char, d: char)
    requires LowerChar(d) == LowerChar(c) && !('A' <= d <= 'Z')
    ensures d == '@' <==> c == '@'
    ensures IsSpace(d) <==> IsSpace(c)
    ensures LowerChar(d) == d
  {
  }

  /** The normalised address keeps the last '@' where it was. */
  lemma NormalizeAddressKeepsSplit(s: string)
    ensures LastIndexOf(NormalizeAddress(s), '@') == LastIndexOf(s, '@')
  {
    var k := LastIndexOf(s, '@');
    var r := NormalizeAddress(s);
    if k >= 0 {
      forall j | k < j < |r|
        ensures r[j] != '@'
      {
        NormalizedChar(s[j], r[j]);
      }
      LastIndexOfUnique(r, '@', k);
    }
  }

  /** Normalising a normalised address changes nothing. */
  lemma NormalizeAddressIdempotent(s: string)
    ensures NormalizeAddress(NormalizeAddress(s)) == NormalizeAddress(s)
  {
    var k := LastIndexOf(s, '@');
    var r := NormalizeAddress(s);
    var t := NormalizeAddress(r);
    NormalizeAddressKeepsSplit(s);
    forall i | 0 <= i < |r|
      ensures t[i] == r[i]
    {
      if i > k && k >= 0 {
        NormalizedChar(s[i], r[i]);
        NormalizedChar(r[i], t[i]);
      }
    }
  }

  /** An address with no whitespace at its ends keeps none there. */
  lemma NormalizeAddressEnds(s: string)
    requires s == [] || (!IsSpace(s[0]) && !IsSpace(s[|s| - 1]))
    ensures var r := NormalizeAddress(s); r == [] || (!IsSpace(r[0]) && !IsSpace(r[|r| - 1]))
  {
    var k := LastIndexOf(s, '@');
    var r := NormalizeAddress(s);
    if r != [] && k >= 0 {
      if |r| - 1 > k { NormalizedChar(s[|s| - 1], r[|r| - 1]); }
    }
  }

  /** BaseUserManager.normalize_email: the address is stripped, then its domain part lower-cased. */
  function NormalizeEmail(email: string): (r: string)
    ensures r == NormalizeAddress(Strip(email))
  {
    NormalizeAddress(Strip(email))
  }

  /** A normalised email is its own normal form. */
  lemma NormalizeEmailIdempotent(email: string)
    ensures NormalizeEmail(NormalizeEmail(email)) == NormalizeEmail(email)
  {
    var s := Strip(email);
    var r := NormalizeAddress(s);
    NormalizeAddressEnds(s);
    NoSpaceAtEnds(r);
    NormalizeAddressIdempotent(s);
  }

  /** The domain of "ana@Example.COM" is lower-cased and its local part kept. */
  lemma NormalizeAddressExample()
    ensures NormalizeAddress("ana@Example.COM") == "ana@example.com"
  {
    var s := "ana@Example.COM";
    LastIndexOfUnique(s, '@', 3);
    var r := NormalizeAddress(s);
    forall i | 0 <= i < |s|
      ensures r[i] == "ana@example.com"[i]
    {
      if i > 3 { NormalizedChar(s[i], r[i]); }
    }
  }

  /**
   * UserRegistrationSerializer.create: create_user builds the account from
   * username, email and password only, so password2 is never stored; the
   * username is normalised with `normalizeUsername` (Unicode NFKC, taken as
   * a parameter) and the email with NormalizeEmail.
   */
  function NewUser(validated: RegistrationInput, normalizeUsername: string -> string): (u: User)
    requires validated.email.Some?
    ensures u.username == normalizeUsername(validated.username)
    ensures u.email == NormalizeEmail(validated.email.value)
    ensures u.password == validated.password
  {
    User(normalizeUsername(validated.username), NormalizeEmail(validated.email.value), validated.password)
  }

  /** Whatever password2 held, the stored account is the same. */
  lemma Password2NeverStored(a: RegistrationInput, p2: string, normalizeUsername: string -> string)
    requires a.email.Some?
    ensures NewUser(a.(password2 := p2), normalizeUsername) == NewUser(a, normalizeUsername)
  {
  }

  // ---------------------------------------------------------------------
  // ReviewSerializer
  // ---------------------------------------------------------------------

  /**
   * A review payload as a client sends it. `autor` is accepted from the
   * client but is a read-only field, so validation ignores it.
   */
  datatype ReviewPayload = ReviewPayload(
    autor: Option<UserId>,
    titulo: Option<string>,
    texto: Option<string>,
    rating: Option<int>,
    spoiler: Option<bool>)

  /** The writable review fields after validation. */
  datatype ReviewFields = ReviewFields(titulo: string, texto: string, rating: nat, spoiler: bool)

  const TituloMaxLength: nat := 200

  predicate TituloError(p: ReviewPayload)
  {
    p.titulo.Some? && |Strip(p.titulo.value)| > TituloMaxLength
  }

  predicate TextoError(p: ReviewPayload, partial: bool)
  {
    (p.texto.None? && !partial) || (p.texto.Some? && Strip(p.texto.value) == "")
  }

  predicate RatingError(p: ReviewPayload, partial: bool)
  {
    (p.rating.None? && !partial) || (p.rating.Some? && !ValidRating(p.rating.value))
  }

  /** The keys the serializer reports for an invalid payload. */
  function ReviewErrors(p: ReviewPayload, partial: bool): ErrorKeys
  {
    (if TituloError(p) then {"titulo"} else {})
    + (if TextoError(p, partial) then {"texto"} else {})
    + (if RatingError(p, partial) then {"rating"} else {})
  }

  /**
   * ReviewSerializer(data=...).is_valid() for a new review: texto and
   * rating are required, rating lies in 1..5, titulo is optional (default
   * "") and at most 200 characters, spoiler defaults to false. Text fields
   * are trimmed. The client's `autor` plays no part.
   */
  function ValidateNewReview(p: ReviewPayload): (r: Result<ReviewFields, ErrorKeys>)
    ensures r.Ok? <==> ReviewErrors(p, false) == {}
    ensures r.Err? ==> r.error == ReviewErrors(p, false) && r.error != {}
    ensures r.Ok? ==> ValidRating(r.value.rating) && Strip(r.value.texto) != ""
    ensures r.Ok? ==> r.value.spoiler == (p.spoiler == Some(true))
    ensures r.Ok? ==> r.value.titulo == (if p.titulo.Some? then Strip(p.titulo.value) else "")
    ensures r.Ok? ==> r.value.texto == Strip(p.texto.value) && r.value.rating == p.rating.value
  {
    var errors := ReviewErrors(p, false);
    if errors != {} then Err(errors)
    else
      StripIdempotent(p.texto.value);
      Ok(ReviewFields(
        if p.titulo.Some? then Strip(p.titulo.value) else "",
        Strip(p.texto.value),
        p.rating.value,
        p.spoiler == Some(true)))
  }

  /**
   * Validation for an update of an existing review. texto and rating are
   * required unless the update is partial (PATCH); titulo and spoiler are
   * never required and have no serializer default, so an absent one keeps
   * its stored value in either kind of update. Present fields replace the
   * stored ones, text fields trimmed.
   */
  function ValidateUpdate(old_: Review, p: ReviewPayload, partial: bool): (r: Result<Review, ErrorKeys>)
    ensures r.Ok? <==> ReviewErrors(p, partial) == {}
    ensures r.Err? ==> r.error == ReviewErrors(p, partial) && r.error != {}
    ensures r.Ok? ==> r.value.filme == old_.filme && r.value.autor == old_.autor
    ensures r.Ok? && p.rating.Some? ==> r.value.rating == p.rating.value && ValidRating(r.value.rating)
    ensures r.Ok? && p.rating.None? ==> partial && r.value.rating == old_.rating
    ensures r.Ok? && p.texto.Some? ==> r.value.texto == Strip(p.texto.value) != ""
    ensures r.Ok? && p.texto.None? ==> partial && r.value.texto == old_.texto
    ensures r.Ok? ==> r.value.titulo == if p.titulo.Some? then Strip(p.titulo.value) else old_.titulo
    ensures r.Ok? ==> r.value.spoiler == if p.spoiler.Some? then p.spoiler.value else old_.spoiler
  {
    var errors := ReviewErrors(p, partial);
    if errors != {} then Err(errors)
    else Ok(old_.(
      titulo := if p.titulo.Some? then Strip(p.titulo.value) else old_.titulo,
      texto := if p.texto.Some? then Strip(p.texto.value) else old_.texto,
      rating := if p.rating.Some? then p.rating.value else old_.rating,
      spoiler := if p.spoiler.Some? then p.spoiler.value else old_.spoiler))
  }

  /** A PATCH with no fields leaves the review exactly as it was. */
  lemma EmptyPatchKeepsReview(old_: Review, a: Option<UserId>)
    ensures ValidateUpdate(old_, ReviewPayload(a, None, None, None, None), true) == Ok(old_)
  {
  }

  /** Applying the same accepted update a second time changes nothing more. */
  lemma UpdateIdempotent(old_: Review, p: ReviewPayload, partial: bool)
    requires ValidateUpdate(old_, p, partial).Ok?
    ensures ValidateUpdate(ValidateUpdate(old_, p, partial).value, p, partial) == ValidateUpdate(old_, p, partial)
  {
  }

  /** A full update (PUT) with the fields of a valid creation stores what creation would, except absent titulo and spoiler. */
  lemma FullUpdateAgreesWithCreation(old_: Review, p: ReviewPayload)
    requires p.titulo.Some? && p.spoiler.Some?
    ensures ValidateUpdate(old_, p, false).Ok? <==> ValidateNewReview(p).Ok?
    ensures ValidateNewReview(p).Ok? ==>
      var v := ValidateNewReview(p).value;
      ValidateUpdate(old_, p, false).value == Review(old_.filme, old_.autor, v.titulo, v.texto, v.rating, v.spoiler)
  {
  }

  /** A client-supplied autor never changes what validation produces. */
  lemma AutorIsReadOnly(p: ReviewPayload, a: Option<UserId>)
    ensures ValidateNewReview(p.(autor := a)) == ValidateNewReview(p)
  {
  }

  lemma StripIdempotent(s: string)
    ensures Strip(Strip(s)) == Strip(s)
  {
    NoSpaceAtEnds(Strip(s));
  }

  // ---------------------------------------------------------------------
  // Filme serializers
  // ---------------------------------------------------------------------

  const ListFields: seq<string> :=
    ["id", "titulo", "slug", "ano_lancamento", "media_rating", "poster", "backdrop", "generos"]

  const DetailExtraFields: seq<string> := ["descricao", "imdb_id", "created_at", "updated_at"]

  datatype FilmeSerializer = ListSerializer | WriteSerializer | DetailSerializer

  /** FilmeViewSet.get_serializer_class. */
  function SerializerFor(action: string): (s: FilmeSerializer)
    ensures s == ListSerializer <==> action == "list"
    ensures s == WriteSerializer <==> action in {"create", "update", "partial_update"}
  {
    if action == "list" then ListSerializer
    else if action in {"create", "update", "partial_update"} then WriteSerializer
    else DetailSerializer
  }

  /** The fields a read serializer renders; the write serializer exposes every model field. */
  function RenderedFields(s: FilmeSerializer): (fields: seq<string>)
    requires s != WriteSerializer
    ensures s == ListSerializer ==> fields == ListFields
    ensures s == DetailSerializer ==> |fields| == |ListFields| + |DetailExtraFields|
    ensures s == DetailSerializer ==> fields[..|ListFields|] == ListFields
    ensures s == DetailSerializer ==> fields[|ListFields|..] == DetailExtraFields
  {
    if s == ListSerializer then ListFields else ListFields + DetailExtraFields
  }

  /** The detail view shows every list field, and the aggregate is in both. */
  lemma DetailExtendsList()
    ensures forall x :: x in RenderedFields(ListSerializer) ==> x in RenderedFields(DetailSerializer)
    ensures "media_rating" in RenderedFields(ListSerializer)
    ensures "descricao" !in RenderedFields(ListSerializer) && "descricao" in RenderedFields(DetailSerializer)
  {
  }
}
