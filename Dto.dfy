/**
 * The request validators: the registration payload and the profile-update
 * payload, as the class-validator decorators on their fields check them.
 * Lengths are counted as validator.js `isLength` counts them: in characters
 * (Unicode scalar values, so a surrogate pair is one), leaving out the
 * variation selectors U+FE0E and U+FE0F.
 */
module Dto {

  /** A field of a JSON payload: absent, `null`, a string, or any other JSON value. */
  datatype Field = Missing | Null | Str(s: string) | NonString

  // ---------------------------------------------------------------------------
  // Lengths

  /** The text and emoji presentation selectors, which `isLength` does not count. */
  predicate IsVariationSelector(c: char) {
    c == '\U{FE0E}' || c == '\U{FE0F}'
  }

  /** validator.js `isLength`'s length: the characters other than variation selectors. */
  function ValidatorLength(s: string): (n: nat)
    ensures n <= |s|
    ensures n == |s| <==> forall i :: 0 <= i < |s| ==> !IsVariationSelector(s[i])
  {
    if s == [] then 0
    else
      assert forall i :: 0 < i < |s| ==> s[i] == s[1..][i - 1];
      (if IsVariationSelector(s[0]) then 0 else 1) + ValidatorLength(s[1..])
  }

  /** The length of a concatenation is the sum of the lengths. */
  lemma {:induction false} ValidatorLengthAppend(s: string, t: string)
    ensures ValidatorLength(s + t) == ValidatorLength(s) + ValidatorLength(t)
  {
    if s != [] {
      assert (s + t)[0] == s[0];
      assert (s + t)[1..] == s[1..] + t;
      ValidatorLengthAppend(s[1..], t);
    } else {
      assert s + t == t;
    }
  }

  /** Printable ASCII text is counted character by character. */
  lemma PlainLength(s: string)
    requires forall i :: 0 <= i < |s| ==> ' ' <= s[i] <= '~'
    ensures ValidatorLength(s) == |s|
  {
  }

  /** A variation selector appended to a string adds nothing to its length. */
  lemma VariationSelectorNotCounted(s: string, c: char)
    requires IsVariationSelector(c)
    ensures ValidatorLength(s + [c]) == ValidatorLength(s)
  {
    ValidatorLengthAppend(s, [c]);
    assert [c][1..] == [];
  }

  // ---------------------------------------------------------------------------
  // RegisterDto

  /** `@IsString() @MinLength(3) @MaxLength(20)` on `username`. */
  predicate RegisterUsernameValid(f: Field) {
    f.Str? && 3 <= ValidatorLength(f.s) <= 20
  }

  /** `@IsString() @MinLength(6)` on `password`; there is no upper bound. */
  predicate RegisterPasswordValid(f: Field) {
    f.Str? && ValidatorLength(f.s) >= 6
  }

  predicate RegisterValid(username: Field, password: Field) {
    RegisterUsernameValid(username) && RegisterPasswordValid(password)
  }

  /**
   * Accepted exactly when both fields are strings, the username of 3 to 20 characters, the
   * password of at least 6; without variation selectors the length is the number of characters.
   */
  lemma RegisterValidExactly(username: Field, password: Field)
    requires username.Str? && password.Str?
    requires forall i :: 0 <= i < |username.s| ==> !IsVariationSelector(username.s[i])
    requires forall i :: 0 <= i < |password.s| ==> !IsVariationSelector(password.s[i])
    ensures RegisterValid(username, password) <==> 3 <= |username.s| <= 20 && 6 <= |password.s|
  {
  }

  /** A field that is not a string is refused, whatever the other field holds. */
  lemma RegisterFieldsMustBeStrings(other: Field)
    ensures !RegisterValid(NonString, other) && !RegisterValid(Missing, other) && !RegisterValid(Null, other)
    ensures !RegisterValid(other, NonString) && !RegisterValid(other, Missing) && !RegisterValid(other, Null)
  {
  }

  /** A password however long is accepted once it has 6 characters. */
  lemma RegisterPasswordUnbounded(username: string, password: string, extra: string)
    requires 3 <= ValidatorLength(username) <= 20 && ValidatorLength(password) >= 6
    ensures RegisterValid(Str(username), Str(password + extra))
  {
    ValidatorLengthAppend(password, extra);
  }

  /** Two letters and an emoji presentation selector are two characters to `isLength`: too short. */
  lemma RegisterVariationSelectorShort()
    ensures !RegisterUsernameValid(Str("ab\U{FE0F}"))
  {
    VariationSelectorNotCounted("ab", '\U{FE0F}');
    assert "ab" + ['\U{FE0F}'] == "ab\U{FE0F}";
  }

  /** A plain username of n letters is accepted exactly when 3 <= n <= 20: 2 and 21 are refused, 3 and 20 accepted. */
  lemma RegisterUsernameBoundaries(n: nat)
    ensures RegisterUsernameValid(Str(seq(n, i => 'a'))) <==> 3 <= n <= 20
  {
    PlainLength(seq(n, i => 'a'));
  }

  // ---------------------------------------------------------------------------
  // UpdateProfileDto

  predicate IsHexDigit(c: char) {
    ('0' <= c <= '9') || ('A' <= c <= 'F') || ('a' <= c <= 'f')
  }

  /** `/^#[0-9A-F]{6}$/i`: a hash sign and exactly six hexadecimal digits, in either case. */
  predicate IsHexColor(s: string) {
    |s| == 7 && s[0] == '#' && forall i :: 1 <= i < 7 ==> IsHexDigit(s[i])
  }

  /** `@IsOptional() @IsString() @MinLength(3)` on `username`. */
  predicate ProfileUsernameValid(f: Field) {
    f.Missing? || f.Null? || (f.Str? && ValidatorLength(f.s) >= 3)
  }

  /** `@IsOptional() @IsString() @Matches(...)` on `displayColor`. */
  predicate ProfileColorValid(f: Field) {
    f.Missing? || f.Null? || (f.Str? && IsHexColor(f.s))
  }

  predicate UpdateProfileValid(username: Field, displayColor: Field) {
    ProfileUsernameValid(username) && ProfileColorValid(displayColor)
  }

  /** Both fields are optional: an empty payload, or one whose fields are `null`, is accepted. */
  lemma EmptyProfileUpdateValid()
    ensures UpdateProfileValid(Missing, Missing)
    ensures UpdateProfileValid(Null, Null)
  {
  }

  /** A present field must be a string; a number or an object is refused. */
  lemma ProfileFieldsMustBeStrings(other: Field)
    ensures !UpdateProfileValid(NonString, other)
    ensures !UpdateProfileValid(other, NonString)
  {
  }

  /** The pattern without the `i` flag: only upper-case hexadecimal digits. */
  predicate IsUpperHexColor(s: string) {
    |s| == 7 && s[0] == '#' && forall i :: 1 <= i < 7 ==> ('0' <= s[i] <= '9' || 'A' <= s[i] <= 'F')
  }

  /** The case folding of the `i` flag, restricted to the letters the pattern can meet. */
  function UpperAscii(c: char): (u: char)
    ensures 'a' <= c <= 'z' ==> 'A' <= u <= 'Z' && u as int == c as int - 32
    ensures !('a' <= c <= 'z') ==> u == c
  {
    if 'a' <= c <= 'z' then (c as int - 32) as char else c
  }

  function Upper(s: string): (r: string)
    ensures |r| == |s| && forall i :: 0 <= i < |s| ==> r[i] == UpperAscii(s[i])
  {
    seq(|s|, i requires 0 <= i < |s| => UpperAscii(s[i]))
  }

  /** The `i` flag: a string matches exactly when its upper-case form matches the upper-case pattern. */
  lemma HexColorCaseInsensitive(s: string)
    ensures IsHexColor(s) <==> IsUpperHexColor(Upper(s))
  {
    var u := Upper(s);
    if IsUpperHexColor(u) {
      forall i | 1 <= i < 7 ensures IsHexDigit(s[i]) {
        assert u[i] == UpperAscii(s[i]);
      }
    }
  }

  lemma HexColorExamples()
    ensures UpdateProfileValid(Missing, Str("#FF0000"))
    ensures UpdateProfileValid(Missing, Str("#ff0000"))
    ensures !ProfileColorValid(Str("#FFF"))
    ensures !ProfileColorValid(Str("FF0000"))
    ensures !ProfileColorValid(Str("#GG0000"))
  {
    assert "#GG0000"[1] == 'G' && !IsHexDigit('G');
  }

  /**
   * A present username needs at least 3 characters and has no upper bound; a variation
   * selector anywhere in it does not count towards the 3.
   */
  lemma ProfileUsernameExactly(s: string, t: string, c: char)
    requires IsVariationSelector(c)
    ensures (forall i :: 0 <= i < |s| ==> !IsVariationSelector(s[i])) ==>
      (ProfileUsernameValid(Str(s)) <==> |s| >= 3)
    ensures ProfileUsernameValid(Str(s + [c] + t)) <==> ProfileUsernameValid(Str(s + t))
    ensures ProfileUsernameValid(Str(s)) ==> ProfileUsernameValid(Str(s + t))
  {
    ValidatorLengthAppend(s + [c], t);
    ValidatorLengthAppend(s, [c]);
    ValidatorLengthAppend(s, t);
    assert [c][1..] == [];
  }
}
