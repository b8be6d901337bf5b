/**
 * The client-side password strength rule of
 * frontend/src/features/auth/components/PasswordInput.tsx: four requirement
 * flags computed from the password and their conjunction.
 */
module PasswordRules {

  const MinLength: nat := 8

  /** The symbols of the character class `[!@#$%^&*]`. */
  const Specials: set<char> := {'!', '@', '#', '$', '%', '^', '&', '*'}

  predicate IsDigit(c: char) { '0' <= c <= '9' }

  predicate IsUppercase(c: char) { 'A' <= c <= 'Z' }

  predicate IsSpecial(c: char) { c in Specials }

  predicate HasLength(p: string) { |p| >= MinLength }

  /** `/[0-9]/.test(p)`. */
  predicate HasDigit(p: string) { exists i :: 0 <= i < |p| && IsDigit(p[i]) }

  /** `/[A-Z]/.test(p)`. */
  predicate HasUppercase(p: string) { exists i :: 0 <= i < |p| && IsUppercase(p[i]) }

  /** `/[!@#$%^&*]/.test(p)`. */
  predicate HasSpecial(p: string) { exists i :: 0 <= i < |p| && IsSpecial(p[i]) }

  /** The requirement checklist the component shows under the field. */
  datatype Requirements = Requirements(length: bool, number: bool, uppercase: bool, specialChar: bool)
  {
    predicate AllMet() { length && number && uppercase && specialChar }
  }

  /** The four flags, each from its own test on the password. */
  function RequirementsOf(p: string): (r: Requirements)
    ensures r.length <==> |p| >= 8
    ensures r.number <==> HasDigit(p)
    ensures r.uppercase <==> HasUppercase(p)
    ensures r.specialChar <==> HasSpecial(p)
  {
    Requirements(HasLength(p), HasDigit(p), HasUppercase(p), HasSpecial(p))
  }

  /** The validity reported to the form: every requirement met. */
  predicate IsStrongPassword(p: string)
  {
    RequirementsOf(p).AllMet()
  }

  /** The empty password is weak: it is too short and has none of the characters. */
  lemma EmptyIsWeak()
    ensures !IsStrongPassword("")
    ensures RequirementsOf("") == Requirements(false, false, false, false)
  {
  }

  /** Each requirement, once met, stays met when characters are appended. */
  lemma {:induction false} AppendKeepsRequirements(p: string, q: string)
    ensures RequirementsOf(p).length ==> RequirementsOf(p + q).length
    ensures RequirementsOf(p).number ==> RequirementsOf(p + q).number
    ensures RequirementsOf(p).uppercase ==> RequirementsOf(p + q).uppercase
    ensures RequirementsOf(p).specialChar ==> RequirementsOf(p + q).specialChar
  {
    if HasDigit(p) {
      var i :| 0 <= i < |p| && IsDigit(p[i]);
      assert (p + q)[i] == p[i];
    }
    if HasUppercase(p) {
      var i :| 0 <= i < |p| && IsUppercase(p[i]);
      assert (p + q)[i] == p[i];
    }
    if HasSpecial(p) {
      var i :| 0 <= i < |p| && IsSpecial(p[i]);
      assert (p + q)[i] == p[i];
    }
  }

  /** Appending characters never turns a strong password weak. */
  lemma AppendKeepsStrong(p: string, q: string)
    requires IsStrongPassword(p)
    ensures IsStrongPassword(p + q)
  {
    AppendKeepsRequirements(p, q);
  }

  /**
   * Only ASCII A-Z count as uppercase and only the eight listed symbols as
   * special: an accented capital and a '?' or '-' satisfy neither.
   */
  lemma OnlyAsciiUppercaseAndListedSpecials()
    ensures !HasUppercase("\U{C1}\U{C9}")
    ensures !HasSpecial("?-_+")
    ensures !IsStrongPassword("\U{C1}bcdef1!")
    ensures !IsStrongPassword("Abcdef12?")
  {
    var s := "\U{C1}bcdef1!";
    assert forall i :: 0 <= i < |s| ==> !IsUppercase(s[i]);
  }

  /** "Abcdef1!" meets all four requirements. */
  lemma StrongExample()
    ensures RequirementsOf("Abcdef1!") == Requirements(true, true, true, true)
    ensures IsStrongPassword("Abcdef1!")
  {
    var p := "Abcdef1!";
    assert IsUppercase(p[0]) && IsDigit(p[6]) && IsSpecial(p[7]);
  }

  /** "Abc1!" misses only the length. */
  lemma MissingLengthOnly()
    ensures RequirementsOf("Abc1!") == Requirements(false, true, true, true)
    ensures !IsStrongPassword("Abc1!")
  {
    var p := "Abc1!";
    assert IsUppercase(p[0]) && IsDigit(p[3]) && IsSpecial(p[4]);
  }

  /** "Abcdefg!" misses only the digit. */
  lemma MissingDigitOnly()
    ensures RequirementsOf("Abcdefg!") == Requirements(true, false, true, true)
    ensures !IsStrongPassword("Abcdefg!")
  {
    var p := "Abcdefg!";
    assert IsUppercase(p[0]) && IsSpecial(p[7]);
    assert forall i :: 0 <= i < |p| ==> !IsDigit(p[i]);
  }

  /** "abcdef1!" misses only the uppercase letter. */
  lemma MissingUppercaseOnly()
    ensures RequirementsOf("abcdef1!") == Requirements(true, true, false, true)
    ensures !IsStrongPassword("abcdef1!")
  {
    var p := "abcdef1!";
    assert IsDigit(p[6]) && IsSpecial(p[7]);
    assert forall i :: 0 <= i < |p| ==> !IsUppercase(p[i]);
  }

  /** "Abcdefg1" misses only the special character. */
  lemma MissingSpecialOnly()
    ensures RequirementsOf("Abcdefg1") == Requirements(true, true, true, false)
    ensures !IsStrongPassword("Abcdefg1")
  {
    var p := "Abcdefg1";
    assert IsUppercase(p[0]) && IsDigit(p[7]);
    assert forall i :: 0 <= i < |p| ==> !IsSpecial(p[i]);
  }
}
