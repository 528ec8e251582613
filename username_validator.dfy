/**
 * `UsernameValidator`: a username must be non-empty and not yet taken. The
 * lookup of users by username is given as the set of names already stored.
 */
module UsernameValidator {
  import opened Wrappers
  import opened Model

  const Empty: string := "Username cannot be empty"
  const Taken: string := "Username already exists"

  /**
   * `validate`. A null DTO, a null or an empty username is rejected first;
   * then a name already stored. Emptiness is `isEmpty`, so a name made only
   * of spaces passes the first check.
   */
  function Validate(dto: Option<UserDto>, taken: set<string>): (v: Verdict)
    ensures v == Rejected(Empty) <==> dto.None? || dto.value.username.None? || dto.value.username.value == ""
    ensures v == Rejected(Taken) <==>
      dto.Some? && dto.value.username.Some? && dto.value.username.value != "" && dto.value.username.value in taken
    ensures v == Accepted || v == Rejected(Empty) || v == Rejected(Taken)
  {
    if dto.None? || dto.value.username.None? || |dto.value.username.value| == 0 then Rejected(Empty)
    else if dto.value.username.value in taken then Rejected(Taken)
    else Accepted
  }
}
