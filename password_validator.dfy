/**
 * `PasswordValidator`: a password must be present and at least 5 long, as
 * Java's `String.length()` counts, in UTF-16 code units.
 */
module PasswordValidator {
  import opened Wrappers
  import opened Model
  import Text

  const MinLength: nat := 5
  const TooShort: string := "Password must be at least 5 characters long"

  /** `validate`: rejects a null password and one shorter than five code units, whatever its characters. */
  function Validate(dto: UserDto): (v: Verdict)
    ensures v == Accepted <==> dto.password.Some? && Text.Utf16Length(dto.password.value) >= MinLength
    ensures v != Accepted ==> v == Rejected(TooShort)
  {
    if dto.password.None? || Text.Utf16Length(dto.password.value) < MinLength then Rejected(TooShort) else Accepted
  }

  /**
   * Five characters always pass and two never do; in between it depends on
   * the characters: three characters above U+FFFF take six code units and
   * pass, three others do not.
   */
  lemma LengthCountsCodeUnits(dto: UserDto)
    requires dto.password.Some?
    ensures |dto.password.value| >= 5 ==> Validate(dto) == Accepted
    ensures |dto.password.value| <= 2 ==> Validate(dto) == Rejected(TooShort)
    ensures dto.password.value == "\U{1F600}\U{1F600}\U{1F600}" ==> Validate(dto) == Accepted
    ensures dto.password.value == "abc" ==> Validate(dto) == Rejected(TooShort)
  {
    if dto.password.value == "\U{1F600}\U{1F600}\U{1F600}" {
      Text.AstralTextCountsTwice(dto.password.value);
    } else if dto.password.value == "abc" {
      Text.BmpTextCountsOnce(dto.password.value);
    }
  }
}
